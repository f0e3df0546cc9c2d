# A model of Bazaar's state machines

Bazaar is an application store. Most of it is widgets; this project models the parts with state,
loops and arithmetic of their own, in the form the program has them: objects that change in place
are classes whose methods are proved against functions on values, and what the program is meant
to guarantee is proved about those functions for all inputs, runs and schedules.

| file | what it models |
|---|---|
| `Order.dfy` | shared: orders, sorting, uniqueness of sorted permutations, prefixes, numbers |
| `AppPermissions.dfy` | the permission record of an application and its builders |
| `AppPermissionsMetadata.dfy` | building that record from a Flatpak metadata file |
| `AppPermissionsMeaning.dfy` | what that record says, told from the words of the file |
| `AppPermissionsSerial.dfy` | writing the record to a variant and reading it back |
| `InstalledApps.dfy` | the list of installed applications under backend notifications |
| `AddonQueues.dfy` | add-ons that arrive before or after the application they extend |
| `NotificationLoop.dfy` | the chain of fibers that reads notifications in batches |
| `Blocklist.dfy` | the priority rules that hide applications |
| `DescriptionText.dfy`, `DescriptionRender.dfy`, `DescriptionMeaning.dfy` | compiling an AppStream description into a text buffer, and what it then reads like |
| `ReleaseCatalog.dfy`, `ReleaseResolve.dfy`, `ReleaseDownload.dfy`, `ReleaseEndOfLife.dfy`, `ReleaseScreenshots.dfy` | the builder of the verified release repository: validating, resolving, downloading, retiring, rewriting |
| `MarkdownRender.dfy`, `MarkdownLabels.dfy` | the callbacks that lay out a markdown document, and what it then shows |
| `Animation.dfy` | the registry of spring animations |
| `TextureLimiter.dfy`, `TextureRetry.dfy` | the rate limiter of the texture loader, and its retries |
| `Carousel.dfy` | the layout of the carousel, its gestures and the list behind it |

Where a property that the code or its documentation suggests does not hold, the code is kept as
it is: a lemma gives an input for which it fails, and the exact condition under which it holds is
proved.

- A path with an empty subpath does not survive writing and reading (`EmptySubpathIsLost`,
  `RoundTrip`; for objects read from a file: `FileSurvivesExactly`).
- The list of installed applications goes wrong after an update of an entry that is not
  installed, after some rebases, and after external changes that cannot be read (`NotBenign`,
  `RebaseNotBenign`; exactly when: `StepKeeps`, `RunExactly`).
- Add-ons of one installation kind can stay behind for an application of the other, an id can be
  in the group and in a queue at once, and twice in a queue (`MixedKindsDependOnOrder`,
  `TwoPlacesAtOnce`, `QueuedTwice`; exactly when: `OrderIrrelevantExactly`, `ExactlyOnePlace`).
- Emphasis markers inside a text reach the reader of a description as formatting, so the text of
  a paragraph is its words only when no text in it has a "**" (`StarsAreDropped`, `BlockIsWords`).
- Text after a child block fails an assertion of the markdown callbacks
  (`TextAfterHeadingAborts`), and a nested list renumbers the list around it
  (`NestedListRenumbers`; exactly when: `RowsNumbered`).
- `bge_animation_cancel_all` is documented to cancel all animations but leaves anonymous ones
  running (`AnonymousSurvives`, `CancelAllCancelsNamed`); adding under a running key is documented
  to replace it but does not when the widget should not animate (`OldTargetComesLast`,
  `ReplacedWhenAnimating`).
- The rate limiter looks for the shortest queue, but only the first time
  (`LaterPickIsNotLeastLoaded`, `PickIsLeastLoaded`).
- The retry announced as the last one is never made (`LastRetryIsNeverMade`,
  `AnnouncedRetryIsMade`).
- A small drag of the carousel to the right changes the page, one to the left does not
  (`OnePixel`, `PageKept`); setting a model while the old one has items moves to an index that has
  no widget (`SetModel`).

## Model

| member | source | states |
|---|---|---|
| AppPermissions.BzAppPermissions.AddFilesystemRead | src/bz-app-permissions.c:368-384 | a path that is in neither array is appended to the read array, one that is in either changes nothing; the other fields stay |
| AppPermissions.BzAppPermissions.AddFilesystemFull | src/bz-app-permissions.c:395-421 | a path that is not in the full array is appended to it and taken out of the read array, so full absorbs read |
| AppPermissions.BzAppPermissions.AddBusPolicy | src/bz-app-permissions.c:431-463 | the calls the guards refuse change nothing; a known bus name is raised to the larger permission, a new one is appended unless the permission is "none" |
| AppPermissions.BzAppPermissions.Seal | src/bz-app-permissions.c:286-304 | a sealed object is left alone; otherwise the three arrays are sorted, and a well-formed object becomes canonical |
| AppPermissions.ArrayIndex | src/bz-app-permissions.c:1048-1064 | the index of the first entry with the type and subpath, or none exactly when there is no such entry |
| AppPermissions.AddReadMeaning | src/bz-app-permissions.c:368-384 | asking for read raises the access of that path to at least read and changes no other path and no bus name |
| AppPermissions.AddFullMeaning | src/bz-app-permissions.c:395-421 | asking for full gives that path full access and changes no other path and no bus name |
| AppPermissions.AddBusMeaning | src/bz-app-permissions.c:431-463 | the name gets the maximum of its permission and the one asked for, every other name and every path keeps what it had |
| AppPermissions.RunAccess | src/bz-app-permissions.c:368-421 | after any run of builder calls the arrays are duplicate-free and disjoint, the policies have one entry per bus name and never "none", and every path has the largest access that any call asked for |
| AppPermissions.RunBusPermission | src/bz-app-permissions.c:431-463 | after any run of builder calls the permission of each bus name is the largest that any accepted call asked for |
| AppPermissions.PathOrder | src/bz-app-permissions.c:1018-1031 | the comparator of the path arrays is a total order on paths |
| AppPermissions.PolicyOrder | src/bz-app-permissions.c:1033-1046 | the comparator of the policies is a total order up to the permission, hence on arrays with one entry per name |
| AppPermissions.SealedMeaning | src/bz-app-permissions.c:286-304 | sealing changes no access and no policy and puts the arrays in the order of their comparators |
| AppPermissions.CanonicalForm | src/bz-app-permissions.c:286-304 | two objects that give the same access to every path and the same permission to every bus name are equal, array for array, once sealed |
| AppPermissionsMeaning.SealedOrder | src/bz-app-permissions.c:1018-1046 | in a sealed object paths come by kind in the order of the enumeration, then without a subpath, then by the characters of the subpath, and policies by bus and the characters of the name, each strictly before the next |
| AppPermissionsMetadata.NewFromMetadata | src/bz-app-permissions.c:478-766 | reading a key file by loops that overwrite the tokens and call the builders gives the object of the specification |
| AppPermissionsMetadata.BlankAccessTokens | src/bz-app-permissions.c:528-585 | the loop over the access table blanks in the array the first occurrence of each key; the hits are the number of keys that occur in the list, and the flags the union of those of the keys that occur |
| AppPermissionsMetadata.BlankedExactly | src/bz-app-permissions.c:528-585 | for every list: of each token that is not empty exactly one occurrence is gone if it is a key of the table, and none otherwise |
| AppPermissionsMetadata.HitExactly | src/bz-app-permissions.c:528-585 | an entry of the table hits exactly when its key occurs in the list, whatever earlier entries blanked |
| AppPermissionsMetadata.AccessExactly | src/bz-app-permissions.c:528-585 | the number of hits is the number of keys that occur, and the flags are the union of those of the keys that occur |
| AppPermissionsMetadata.AddOtherTokens | src/bz-app-permissions.c:603-655 | cutting each token left at its last colon, finding its type and subpath, and calling the builder gives the object of the calls of the specification; what a token names is said by AppPermissionsMeaning.NamesExactly |
| AppPermissionsMetadata.ReadBusPolicies | src/bz-app-permissions.c:659-760 | the two bus groups are read unless a socket already grants a bus; both contribute their flags and policies |
| AppPermissionsMetadata.HitsAreBlank | src/bz-app-permissions.c:528-590 | the comparison of the number of hits with the number of tokens is right: as many hits as tokens leave no token to process |
| AppPermissionsMetadata.SameCallsSameObject | src/bz-app-permissions.c:286-304 | the sealed object depends only on the set of builder calls, not on their order or repetition |
| AppPermissionsMetadata.PermutationInvariance | src/bz-app-permissions.c:478-766 | permuting the tokens of any list, or the keys of a bus policy group, leaves the sealed object identical |
| AppPermissionsMeaning.MetadataMeaning | src/bz-app-permissions.c:528-656 | the object is sealed and canonical; a path has full access exactly when a token that the access table leaves names it without ":ro" at its end, and read access exactly when only such tokens with ":ro" do; what a token names is said on its characters |
| AppPermissionsMeaning.NamesExactly | src/bz-app-permissions.c:603-655 | every token names one path: the part before its last colon gives the kind by the first prefix of the table it begins with, and the subpath is what follows the slash of the root or its first slash; without a prefix it is custom |
| AppPermissionsMeaning.MetadataFlags | src/bz-app-permissions.c:495-764 | for every file and every flag, whether the object has it, from the sockets, devices, shared and file system tokens and the bus keys of the file alone |
| AppPermissionsMeaning.MetadataBus | src/bz-app-permissions.c:659-760 | the permission on a bus name is at least as large as some key of the file asks for, exactly, unless a socket opens a bus, every application has it, or it is a flag |
| AppPermissionsSerial.ClassesRegistered | src/bz-app-permissions.c:33-84 | the enumerations the nicks come from have distinct nicks, cover every path type and permission, and their flags have one bit each |
| AppPermissionsSerial.Serialize | src/bz-app-permissions.c:768-861 | the variant has an item for each part that is not empty, with the nicks and entries in order |
| AppPermissionsSerial.SerializedSays | src/bz-app-permissions.c:768-861 | an entry for each part that is not empty and no other, in order; the flags by the nicks of the enumerators that overlap them, each path by the nick of its type and its subpath, each policy by bus, name and nick of its permission |
| AppPermissionsSerial.Deserialize | src/bz-app-permissions.c:863-1016 | an item of flags sets the flags its nicks name, every other item appends its entries, unknown nicks are skipped, and the object ends sealed; unless a bus policy has no bus or an empty name, which is reported |
| AppPermissionsSerial.EntriesMean | src/bz-app-permissions.c:905-1000 | reading entries from anywhere: a nick means the first enumerator that has it, an unknown one gives nothing, and an empty subpath none |
| AppPermissionsSerial.RoundTrip | src/bz-app-permissions.c:768-1016 | a sealed object comes back with empty subpaths made absent and unregistered bits dropped, so it comes back the same exactly when it has neither |
| AppPermissionsSerial.FileSurvivesExactly | src/bz-app-permissions.c:768-1016 | an object read from a metadata file comes back the same exactly when no token that the access table leaves names an empty subpath; the reader only sets registered bits |
| AppPermissionsSerial.EmptySubpathIsLost | src/bz-app-permissions.c:631-641 | the empty subpath is reachable: no object read from a metadata file with the token "xdg-run/" survives the round trip |
| InstalledApps.BzApplication.EnsureGroupAndAdd | src/bz-application.c:2648-2681 | the entry joins the group of its id, which is created if needed, and an installed group is listed once |
| InstalledApps.BzApplication.OnReplaceEntry | src/bz-application.c:2683-2766 | the entry is cached and, if it is an application or an add-on, joins the group of its id, which is listed if the entry is installed; no other group, and not the installed set, changes |
| InstalledApps.BzApplication.OnInstallDone | src/bz-application.c:1969-1995 | when the entry can be read its unique id is installed in the given version and the group of an application is put on the list unless it is there; nothing else changes, and nothing at all when it cannot be read |
| InstalledApps.BzApplication.OnUpdateOrRemoveDone | src/bz-application.c:1996-2039 | a plain update sets the installed version; a removal, or a rebase, takes the unique id out of the installed set and the group of an application off the list, a removal only if no other member is installed; nothing else changes |
| InstalledApps.BzApplication.OnExternalChange | src/bz-application.c:2066-2206 | the installed set is the one retrieved; a group is listed if a readable member came into the set, and otherwise taken off the list if a readable member left and none is installed, in whatever order the tables are iterated |
| InstalledApps.ReplaceFields | src/bz-application.c:2683-2766 | what replacing an entry does to every group and to the list, on values |
| InstalledApps.ExternalChangeFields | src/bz-application.c:2066-2206 | what an external change does to every field, on values |
| InstalledApps.LastDecides | src/bz-application.c:1948-2206 | after any run a unique id is installed, and in which version, as the last notification says that names it and can be read or that brings a whole set; if there is none, as at the start |
| InstalledApps.GroupsOfRun | src/bz-application.c:2648-2766 | after any run a group has the members it had and those that an entry put there |
| InstalledApps.StepConsistent | src/bz-application.c:1948-2206 | every notification keeps groups, cache and list consistent with one another |
| InstalledApps.StepKeeps | src/bz-application.c:1948-2206 | after any notification the list is right exactly when the notification was benign: the exact condition for updates, rebases and external changes |
| InstalledApps.RunKeeps | src/bz-application.c:1948-2206 | in every run of benign notifications an application group is listed exactly when one of its members is installed |
| InstalledApps.OrdinaryRunKeeps | src/bz-application.c:1948-2206 | the same for every run without rebases in which updates name installed entries and changed entries can be read from the cache |
| InstalledApps.BzApplication.EnumerateDiskGroups | src/bz-application.c:1512-1548 | reading any saved file gives the table with the last group of each id and one place on the list for each installed group; each installed group of the table is listed once, and no other, exactly when no saved group with an installed member is followed by another of its id |
| InstalledApps.StartsRight | src/bz-application.c:1528-1546 | the list of the start state is right, and the state is consistent when the saved groups agree with the entry cache |
| InstalledApps.RunExactly | src/bz-application.c:1948-2206 | throughout a run the list is right exactly when every notification of the run is benign |
| InstalledApps.RunFromStartup | src/bz-application.c:1512-2206 | from the start, with saved groups and cache that agree: the list is right throughout any run exactly when the run is benign, and after every run of ordinary notifications |
| InstalledApps.ExternalChangeRebuilds | src/bz-application.c:2100-2201 | walking only the symmetric difference gives the list that rebuilding from the new set would give |
| InstalledApps.NotBenign | src/bz-application.c:2002-2008 | the conditions are needed: an update of an entry that was not installed, or an external change that cannot be read, leaves a group unlisted |
| InstalledApps.RebaseNotBenign | src/bz-application.c:2025-2035 | and a rebase of one of two installed members takes the group off the list |
| AddonQueues.BzApplication.ReplaceEntry | src/bz-application.c:2762-2837 | an application drains the queue of its kind into its group; an add-on joins the group of its application or the queue of its own kind |
| AddonQueues.AddonForExactly | src/bz-application.c:2795-2815 | the application of an add-on is the second component of the ref it extends, for add-ons without ".Debug" or ".Locale" in their id |
| AddonQueues.ExactlyOnePlace | src/bz-application.c:2762-2837 | after any run each arrival is either delivered or waits; the group has a delivered id once, a queue has an id once for every arrival of it that waits, and an id is in two places exactly when one arrival of it was delivered and another one waits |
| AddonQueues.QueueCounts | src/bz-application.c:2820-2834 | the number of times an id is in a queue is the number of its arrivals of that kind that still wait |
| AddonQueues.OneKindOnePlace | src/bz-application.c:2762-2837 | with one installation kind no id is in the group and in a queue at once |
| AddonQueues.QueuedTwice | src/bz-application.c:2827-2834 | nothing guards a queue: an add-on that arrives twice before its application is queued twice |
| AddonQueues.TwoPlacesAtOnce | src/bz-application.c:2814-2834 | with two kinds an id is in two places after a user add-on, a system application and a system add-on of the same id |
| AddonQueues.NothingLost | src/bz-application.c:2762-2837 | what arrived for an application is in its group or in one of its two queues, and nothing else is |
| AddonQueues.NeverTwice | src/bz-entry-group.c:772-786 | no group ever lists an add-on id twice |
| AddonQueues.ArrivedAppHasAll | src/bz-application.c:2762-2837 | with one installation kind an application that arrived has every add-on that arrived for it, and its queues are empty |
| AddonQueues.OrderIrrelevantExactly | src/bz-application.c:2762-2837 | the add-ons that an application ends with are the same for every order of arrival exactly when its group was there at the start, or is never made, or every add-on for it has an arrival that makes the group or has an application entry of its own kind |
| AddonQueues.OrderIndependent | src/bz-application.c:2762-2837 | so with one installation kind the add-ons of an arrived application do not depend on the order of arrival |
| AddonQueues.MixedKindsDependOnOrder | src/bz-application.c:2764-2768 | with two kinds they do: a user add-on that comes before the system application stays in its queue |
| Blocklist.ValidateBlocklists | src/bz-application.c:4254-4275 | the loops with their two running minima accept an id exactly when every rule that blocks it is matched by an allow rule of the same or a smaller priority |
| Blocklist.LeastDecides | src/bz-application.c:4275-4275 | comparing the two least priorities decides that question |
| Blocklist.OrderOfRules | src/bz-application.c:4254-4274 | the verdict depends only on which rules are loaded, not on the order of files and rules |
| Blocklist.MoreRules | src/bz-application.c:4265-4272 | another allow rule never hides an application and another block rule never shows one |
| NotificationLoop.EveryScheduleInOrder | src/bz-application.c:1818-2247 | from any state in order, in every schedule of arrivals, timer expiries and fiber runs the notifications handled are a prefix of those sent, each once and in order |
| NotificationLoop.FromTheStart | src/bz-application.c:1818-2247 | from the start of the program the notifications handled are always a prefix of those sent, and all of them when the chain rests |
| NotificationLoop.RestMeansDone | src/bz-application.c:2211-2247 | when the chain rests, everything that was sent was handled: the read that lost the race is handed to the next run |
| NotificationLoop.StepsRunOut | src/bz-application.c:2622-2646 | between two outside events every step leaves strictly less to do, so the chain does come to rest |
| DescriptionText.NormalizeWhitespace | src/bz-appstream-description-render.c:654-690 | the loop with its two flags passed by reference computes the normalisation and the flags after it |
| DescriptionText.NormalizeConcat | src/bz-appstream-description-render.c:654-690 | normalising piece by piece with shared flags equals normalising the concatenation |
| DescriptionText.NormalizeIsWords | src/bz-appstream-description-render.c:654-690 | from any flags the output is the separator still owed, then the words of the text joined by single spaces |
| DescriptionText.NormalizeFresh | src/bz-appstream-description-render.c:654-690 | from fresh flags the output is exactly the words joined by single spaces, with none at either end |
| DescriptionText.NormalizeKeepsStars | src/bz-appstream-description-render.c:654-690 | normalising neither makes nor removes two stars in a row |
| DescriptionText.InsertText | src/bz-appstream-description-render.c:440-506 | the splitting and scanning loops insert the segments of the specification, in order |
| DescriptionText.InsertChunk | src/bz-appstream-description-render.c:472-504 | the scan of one part terminates, because every link takes at least seven characters after trimming, and inserts its text and links |
| DescriptionText.ScanUrl | src/bz-appstream-description-render.c:489-500 | a link runs to the first whitespace and loses its trailing punctuation |
| DescriptionText.UrlIsLong | src/bz-appstream-description-render.c:489-500 | trimming never eats the scheme: a link keeps at least seven characters |
| DescriptionText.SegmentsConserve | src/bz-appstream-description-render.c:440-506 | the segments concatenate to the text with every "**" removed and nothing else changed |
| DescriptionText.SegmentsGood | src/bz-appstream-description-render.c:472-504 | every link starts with http:// or https://, has no whitespace and does not end in punctuation, and no link is left in plain text |
| DescriptionMeaning.EmphasisLaw | src/bz-appstream-description-render.c:454-506 | which texts are emphasised: none before the first "**", what follows it up to the next one or to the end, and after that one as from the start |
| DescriptionRender.Compile | src/bz-appstream-description-render.c:508-645 | the recursive walk with its flags by reference appends the rendering of the node to the buffer |
| DescriptionRender.RunsAreNormal | src/bz-appstream-description-render.c:579-615 | the texts and tails of a node, normalised one by one, are one normalisation of its flattened text |
| DescriptionRender.InlineText | src/bz-appstream-description-render.c:585-615 | an inline node inserts its runs and leaves the flags as they do |
| DescriptionRender.BlockText | src/bz-appstream-description-render.c:579-645 | a paragraph or list item inserts its prefix, its runs from fresh flags and its suffix, and leaves the outer flags alone |
| DescriptionRender.BlockIsWords | src/bz-appstream-description-render.c:579-645 | the text of a paragraph or list item is the words of its flattened text joined by single spaces, exactly when no text and no tail inside it has a "**" |
| DescriptionMeaning.ParagraphIsALine | src/bz-appstream-description-render.c:579-645 | a paragraph without stars is a line of its words |
| DescriptionMeaning.ListIsLines | src/bz-appstream-description-render.c:540-645 | a list of plain items reads as the lines of its items, with numbers from 1 or bullets |
| DescriptionMeaning.NodeIsTagged | src/bz-appstream-description-render.c:567-639 | all that a node adds has the tag of its element, but for a newline at the end |
| DescriptionMeaning.ItemHead | src/bz-appstream-description-render.c:540-566 | an item begins with its number, tagged as one, or with a bullet |
| DescriptionMeaning.OnlyGivenTags | src/bz-appstream-description-render.c:567-639 | no text has a tag that no element around it and no link, emphasis or number in it gives |
| DescriptionRender.StarsAreDropped | src/bz-appstream-description-render.c:458-458 | a paragraph for which it is not: the text "a**b" |
| ReleaseCatalog.ValidateCatalog | scripts/spaced_github_repo.py:175-294 | the validator accepts a catalog exactly when it satisfies the declarative conditions; its three seen-sets stand for pairwise distinctness |
| ReleaseCatalog.ValidateApp | scripts/spaced_github_repo.py:183-288 | one application is accepted exactly when its own fields are valid and it shares nothing with the ones before it, and the seen-sets grow by its entries |
| ReleaseCatalog.AppIdIsDottedWords | scripts/spaced_github_repo.py:39-39 | the test for application ids accepts exactly what the regular expression does: words with dots between them |
| ReleaseCatalog.ValidateAssets | scripts/spaced_github_repo.py:266-286 | the assets are accepted exactly when there are some, their architectures are supported and distinct, and their patterns are basenames |
| ReleaseResolve.SelectMeaning | scripts/spaced_github_repo.py:336-395 | selection succeeds exactly for a published release, stable or pinned by tag, with one asset that matches the pattern, when that asset is uploaded, inside its release path and has a digest that the pin, if any, names; and it gives that asset |
| ReleaseResolve.SelectPermuted | scripts/spaced_github_repo.py:351-395 | the selection does not depend on the order of the assets of the release |
| ReleaseResolve.ResolveCatalog | scripts/spaced_github_repo.py:398-457 | the loops over sorted applications and assets, after validation, give the result of the specification, which ResolvesExactly describes |
| ReleaseResolve.ResolvesExactly | scripts/spaced_github_repo.py:336-457 | a catalog resolves exactly when it is valid and every fetch answers with an acceptable release that has one usable match for each architecture; each resolved application then has the tag and prerelease mark of the release that was fetched, the fields of its entry, and assets with the name, size, id, URL and digest of the only asset that matches |
| ReleaseResolve.AppExactly | scripts/spaced_github_repo.py:405-450 | the same for one application |
| ReleaseResolve.ResolvedAppFaithful | scripts/spaced_github_repo.py:411-449 | a resolved application has one asset per catalog architecture, strictly sorted, each with the reviewed tag and digest if it is pinned |
| ReleaseResolve.ResolvedCatalog | scripts/spaced_github_repo.py:405-450 | a resolved catalog has every application of the catalog once, strictly sorted by id, each faithful to its entry |
| ReleaseResolve.AppOrderIrrelevant | scripts/spaced_github_repo.py:398-457 | permuting the applications of any catalog keeps it valid or invalid and changes nothing of what resolving it gives |
| ReleaseResolve.AssetOrderIrrelevant | scripts/spaced_github_repo.py:398-457 | permuting catalog assets and release assets keeps the catalog valid or invalid and changes nothing of what resolving it gives |
| ReleaseDownload.Cache.DownloadAsset | scripts/spaced_github_repo.py:468-500 | the steps over target and partial file leave the cache and the verdict of the specification |
| ReleaseDownload.DownloadMeans | scripts/spaced_github_repo.py:468-500 | a verified file changes nothing; otherwise the partial file is gone, the file is the body that came if it has the reviewed size and digest and gone if not, and no other file changes |
| ReleaseDownload.SuccessIsVerified | scripts/spaced_github_repo.py:473-500 | whatever the cache held and the network sent, success means a file of the reviewed size and digest, and failure that no file is left for the asset |
| ReleaseDownload.SecondTimeFromTheCache | scripts/spaced_github_repo.py:474-476 | an asset that was downloaded is served from the cache, whatever the network would send |
| ReleaseDownload.TargetInjective | scripts/spaced_github_repo.py:473-473 | the file name tells the id and the name of its asset |
| ReleaseDownload.OthersUntouched | scripts/spaced_github_repo.py:473-481 | a download never touches the file of another asset, by target or by partial file |
| ReleaseDownload.AllVerifiedTogether | scripts/spaced_github_repo.py:468-500 | after a run of downloads without failure all files are verified at once exactly when no two assets give one id and name different contents |
| ReleaseDownload.AllDownloadedExactly | scripts/spaced_github_repo.py:468-500 | a run of downloads of agreeing assets succeeds exactly when each file was there, is downloaded earlier in the run, or comes as it was reviewed |
| ReleaseEndOfLife.EndOfLifeRebaseCommands | scripts/spaced_github_repo.py:853-883 | the three loops give the commands of the specification, in order |
| ReleaseEndOfLife.RefInjective | scripts/spaced_github_repo.py:865-876 | a ref tells its id, architecture and branch when the first two have no slash |
| ReleaseEndOfLife.ResolvedReady | scripts/spaced_github_repo.py:269-294 | resolving a valid catalog establishes what the rebase stage relies on |
| ReleaseEndOfLife.RebaseIsSafe | scripts/spaced_github_repo.py:861-882 | every command copies the published ref of the id it rebases to, to the unpublished ref of the id it retires, for one architecture and branch; no application retires the id it goes to, and the same retired id always goes to the same one |
| ReleaseEndOfLife.RebaseIsComplete | scripts/spaced_github_repo.py:861-882 | every retired id of a published application is rebased for each of its architectures |
| ReleaseEndOfLife.TargetsDistinct | scripts/spaced_github_repo.py:861-882 | no two commands write the same ref |
| ReleaseEndOfLife.ValidCatalogRebasesSafely | scripts/spaced_github_repo.py:853-883 | from any valid catalog and any releases the commands are safe and write distinct refs |
| ReleaseScreenshots.Checkout.ApplyScreenshots | scripts/spaced_github_repo.py:684-705 | editing the tree component by component gives the rewritten tree, or refuses |
| ReleaseScreenshots.ApplyMeaning | scripts/spaced_github_repo.py:693-705 | it refuses exactly when a selected id has no component or no screenshots, and otherwise rewrites the selected components with their reviewed sets |
| ReleaseScreenshots.ShotsWritten | scripts/spaced_github_repo.py:699-704 | after success the component of each selected id ends with a container of its reviewed screenshots, in order, with caption, size and address, the first one the default; before it are the children that were no screenshots |
| ReleaseScreenshots.AppliedIsAccepted | scripts/spaced_github_repo.py:677-681 | after success the screenshot check accepts every selected application, also when ids are duplicated |
| ReleaseScreenshots.RestUnchanged | scripts/spaced_github_repo.py:693-705 | every component keeps all that is not a screenshot, and one that is not selected keeps everything |
| ReleaseScreenshots.ApplyTwice | scripts/spaced_github_repo.py:684-705 | applying twice equals applying once |
| MarkdownRender.ParseCtx.TerminateBlock | bge/bge-markdown-render.c:877-1153 | terminating a block trims and shows its markup, drops it, or fails an assertion, exactly as the specification of one step says |
| MarkdownRender.ParseCtx.EnterBlock | bge/bge-markdown-render.c:584-678 | entering a block first ends the pending markup of the block around it, then opens a row, a list or fresh markup |
| MarkdownRender.ParseCtx.LeaveBlock | bge/bge-markdown-render.c:680-706 | leaving a block terminates it unless a child block already did, and pops its container and its stack entry |
| MarkdownRender.ParseCtx.Inlines | bge/bge-markdown-render.c:708-875 | spans and text append to the pending markup as the specification of one step says, and fail when nothing is pending; what they add is said by MarkdownLabels |
| MarkdownRender.ParseCtx.Regenerate | bge/bge-markdown-render.c:562-566 | feeding the callbacks one event after the other gives the state of the run, and stops at the first failure |
| MarkdownRender.DocumentRendered | bge/bge-markdown-render.c:584-1153 | for every well-formed document no assertion fails exactly when own text precedes child blocks everywhere; then the stacks are empty, the indent is 0, and what was appended is the recursive rendering with every list item in a row of its own |
| MarkdownLabels.DocumentShown | bge/bge-markdown-render.c:584-1153 | a document that is rendered ends with boxes that show each of its blocks in document order: its text, put together from its inline events and without a last character that is not graphic, in the widget for its type |
| MarkdownLabels.OwnTextIsMarkup | bge/bge-markdown-render.c:708-875 | the markup of a block is the texts of its inline events in order: escaped outside code blocks and as they are inside, breaks as a space or a newline once something precedes them, spans as their opening and closing tags |
| MarkdownLabels.TerminateMeaning | bge/bge-markdown-render.c:877-1153 | what terminating a block shows, keeps and drops in any context, and when it fails, told on the text that is shown |
| MarkdownLabels.WhenBlocksFail | bge/bge-markdown-render.c:584-706 | in any context, exactly when entering a block fails and when leaving one does |
| MarkdownLabels.BoxesHoldTree | bge/bge-markdown-render.c:598-644 | appending box by box leaves the boxes holding the tree of widgets, rows inside rows |
| MarkdownLabels.RowsHoldItems | bge/bge-markdown-render.c:598-644 | a list shows one row for each item, in order, with what that item shows in the row, and with a number exactly in ordered lists |
| MarkdownRender.TextAfterHeadingAborts | bge/bge-markdown-render.c:847-847 | the other documents exist: text after a heading inside a list item fails the assertion of the text callback |
| MarkdownRender.BlockCorrect | bge/bge-markdown-render.c:584-706 | the events of a block, from any context in which a block may start, append its rendering to the current container and restore the context |
| MarkdownRender.RowsNumbered | bge/bge-markdown-render.c:598-638 | the rows of an ordered list are numbered in order exactly when every item but the last leaves the counter one further, which depends on the lists inside it only |
| MarkdownRender.NestedListRenumbers | bge/bge-markdown-render.c:602-607 | the counter is not restored after a nested list: the item that follows shows the number and delimiter of that list |
| Animation.BgeAnimation.AddSpring | bge/bge-animation.c:250-346 | adding a spring releases what it replaces, stores it under its key or anonymously, calls back with the start value and registers a tick; or calls back and releases at once |
| Animation.BgeAnimation.CancelKey | bge/bge-animation.c:374-398 | cancelling a key delivers the end value, releases and removes that spring only |
| Animation.BgeAnimation.CancelAllSprings | bge/bge-animation.c:400-428 | every named spring is ended, in whatever order the table is iterated |
| Animation.BgeAnimation.TickCallback | bge/bge-animation.c:430-536 | a frame updates every named and anonymous spring once, removes the finished ones in place, and unregisters the tick exactly when none is left |
| Animation.BgeAnimation.UpdateSpring | bge/bge-animation.c:445-476 | one spring in a frame is finished exactly when it is cancelled, must not animate, or its elapsed time has reached its duration; then its callback and its release |
| Animation.BgeAnimation.Dispose | bge/bge-animation.c:95-113 | disposing releases every spring without calling back |
| Animation.FrameMeaning | bge/bge-animation.c:430-536 | a spring survives a frame exactly when nothing cancels it and its elapsed time, 0 on its first frame, is less than its duration; it is told its start value on the first frame, the value of the formula afterwards, its end value when it runs out or must not animate, and nothing when it is cancelled |
| Animation.FrameElsewhere | bge/bge-animation.c:430-536 | a frame tells springs not in use nothing, and the tick goes on exactly while one is in use |
| Animation.GoesOnThrough | bge/bge-animation.c:430-536 | through any number of frames in which it goes on a spring is told its start value once and then the value of each frame, and is still there |
| Animation.CancelMeaning | bge/bge-animation.c:374-398 | cancelling a key ends the springs of that key, with their end value while the widget lives, and no other |
| Animation.CancelAllMeaning | bge/bge-animation.c:400-428 | cancelling all does so for every named spring |
| Animation.AddMeaning | bge/bge-animation.c:250-346 | an addition that animates is told its start value and silently ends a running spring of its key; one that does not is told its end value, and on a dead widget nothing |
| Animation.RunsOwnUserData | bge/bge-animation.c:250-536 | in every run a running spring began at its start value and its data is not released, that of any other was released once and last, and springs on a living widget have a tick |
| Animation.DisposedReleasesAll | bge/bge-animation.c:95-113 | after dispose every user data with a destroy function was released exactly once and never used afterwards |
| Animation.EndedAtTheEnd | bge/bge-animation.c:250-536 | a spring that ended was last told its end value, unless it was replaced, stopped by its own cancellable, or ended without a widget |
| Animation.CancelAllCancelsNamed | bge/bge-animation.c:400-428 | cancelling all leaves nothing running exactly when no anonymous spring was |
| Animation.AnonymousSurvives | bge/bge-animation.c:400-428 | an anonymous spring does survive it |
| Animation.ReplacedWhenAnimating | bge/bge-animation.c:276-335 | adding under a key replaces what runs there exactly when the widget animates or nothing runs |
| Animation.OldTargetComesLast | bge/bge-animation.c:337-346 | a run in which it does not: the old end value is delivered after the new one |
| TextureLimiter.ConcurrentGlycin | src/bz-async-texture.c:699-701 | the number of decoding slots is between 1 and 32 on every machine |
| TextureLimiter.GlycinIsHalf | src/bz-async-texture.c:690-701 | it is the largest such number that is at most half the processors, and 1 where none is |
| TextureLimiter.LoadSections | src/bz-async-texture.c:758-1003 | which slots a load asks for on every path: a decoding slot to try a cached copy and one to decode what was fetched, and an io slot for each step that touches files |
| TextureLimiter.LoadAlternates | src/bz-async-texture.c:758-1003 | on every path of a load, early returns included, each slot is given back before another is asked for |
| TextureLimiter.Slots.FindLock | src/bz-async-texture.c:707-723 | the scan takes a slot as specified and counts the fiber in its queue |
| TextureLimiter.Slots.ExchangeGuard | src/util.h:102-124 | the new guard replaces the one in the gate, which is waited for if it is pending |
| TextureLimiter.Slots.FinishLock | src/bz-async-texture.c:725-732 | the fiber is taken out of the count of its queue and no other counter or gate changes |
| TextureLimiter.PickIsLeastLoaded | src/bz-async-texture.c:712-719 | the chosen slot has the shortest queue exactly when some slot is shorter than the count kept from the last choice or slot 0 is the shortest |
| TextureLimiter.FirstPickIsLeastLoaded | src/bz-async-texture.c:712-719 | the first choice of a load is a slot with the shortest queue |
| TextureLimiter.AfterAnEmptySlotAlwaysZero | src/bz-async-texture.c:680-719 | a load that once found an empty slot asks for slot 0 ever after |
| TextureLimiter.LaterPickIsNotLeastLoaded | src/bz-async-texture.c:680-719 | so a later choice can join a longer queue: two loads and a schedule after which the first one does |
| TextureLimiter.CountersFinish | src/bz-async-texture.c:725-732 | the counter is positive whenever FINISH_LOCK decrements it, and stays exact |
| TextureLimiter.StepKeeps | src/bz-async-texture.c:707-748 | every step of every fiber keeps the invariant: exact counters, ordered lines, every wait owned by a fiber ahead, gates holding the youngest guard |
| TextureLimiter.OneInsideASlot | src/util.h:102-124 | at most one fiber is past the gate of a slot, and the fibers behind it came later |
| TextureLimiter.AtMostTheSlots | src/bz-async-texture.c:658-703 | no more fibers are inside sections of a kind than that kind has slots |
| TextureLimiter.SomeFiberCanRun | src/bz-async-texture.c:734-746 | there is no circular wait: from any unfinished fiber the waits lead to one that can run |
| TextureLimiter.EachStepCounts | src/bz-async-texture.c:707-748 | every step of every schedule brings the end nearer by exactly one, so every load ends |
| TextureLimiter.EveryInterleaving | src/bz-async-texture.c:656-1003 | for any loads on any machine and any schedule: exact counters, at most 8 fibers in io and at most the machine's number in decoding, and some fiber can run until all are done |
| TextureRetry.BzAsyncTexture.Load | src/bz-async-texture.c:597-653 | nothing is started when the texture is there, loading, or out of retries |
| TextureRetry.BzAsyncTexture.LoadFinally | src/bz-async-texture.c:1023-1086 | the end of a load sets the texture, or counts the failure and arms the timer of a retry |
| TextureRetry.BzAsyncTexture.RetryCallback | src/bz-async-texture.c:1088-1102 | the end of the timer disarms it and asks for a load |
| TextureRetry.BzAsyncTexture.CancelLoad | src/bz-async-texture.c:578-587 | a cancellation drops the task and uses up the retries |
| TextureRetry.AskingMeans | src/bz-async-texture.c:597-653 | asking for a texture changes the fields so: from the cache it is there at once, otherwise a load starts, and neither when it is there, loading or out of retries |
| TextureRetry.EndMeans | src/bz-async-texture.c:1023-1086 | the end of a pending load changes them so: there with a texture, or a failure counted and the timer armed while retries are left |
| TextureRetry.ThereExactly | src/bz-async-texture.c:597-1102 | in every run the texture is there in the end exactly when a load ended with it or the cache had it when it was asked for and a load might start |
| TextureRetry.AtMostThreeLoads | src/bz-async-texture.c:603-606 | however often it is asked for, a texture is loaded at most three times |
| TextureRetry.CancelledForGood | src/bz-async-texture.c:578-587 | after a cancellation no load is ever started |
| TextureRetry.AnnouncedRetryIsMade | src/bz-async-texture.c:1061-1081 | an announced retry starts a load exactly when it is not the one announced as the last |
| TextureRetry.LastRetryIsNeverMade | src/bz-async-texture.c:1063-1081 | the retry announced as the last is never made |
| Carousel.BgeCarousel.MoveToIdx | bge/bge-carousel.c:837-1016 | after a move the middle of the selected child is half the width of the view plus the displacement of the gesture, and each child that fills its slot starts where such a child before it ends; an unallocated carousel changes nothing, and an index without a widget is reported |
| Carousel.BgeCarousel.EnsureViewport | bge/bge-carousel.c:1050-1073 | the index that is moved to has a widget, or there is nothing to move; after success the strip is laid out around it |
| Carousel.BgeCarousel.SetModel | bge/bge-carousel.c:715-760 | setting a model ends with the list equal to it, a new widget for each item and the selected one in the middle, exactly when the old model was empty or the carousel is not allocated; otherwise an index without a widget is moved to |
| Carousel.BgeCarousel.StripStart | bge/bge-carousel.c:854-889 | the first loop finds where slot 0 starts |
| Carousel.SlotsAdjacent | bge/bge-carousel.c:1013-1013 | every slot starts where the one before it ends |
| Carousel.SlotsTile | bge/bge-carousel.c:891-1013 | every pixel of the strip is in exactly one slot, for any number and widths of children |
| Carousel.SlotWidthMeaning | bge/bge-carousel.c:866-879 | a child that expands gets its minimum or the width of the view, whichever is more; another gets its natural width, or that of the view if there is no room for it |
| Carousel.DrawnInTheMiddle | bge/bge-carousel.c:920-944 | a child fills its slot or is drawn in the middle of it, up to half a pixel |
| Carousel.TargetMeaning | bge/bge-carousel.c:920-944 | a raised child, or any where none is raised, has its whole slot; another is 97.5 percent as high as the view, as wide as it wants to be for that height, and has as much room above as below, up to rounding |
| Carousel.CarouselWidget.Aim | bge/bge-carousel.c:946-1011 | after a move a child is at its target or has springs that end there; it jumps there when its slot has another width or it must not be animated, and otherwise stays where it is drawn |
| Carousel.BgeCarousel.ItemsChanged | bge/bge-carousel.c:763-821 | the list and the widgets are spliced alike, widgets of items that stay are kept, and the new ones are made from the model |
| Carousel.MirrorIsTheModel | bge/bge-carousel.c:763-821 | after every run of changes the list equals the model |
| Carousel.FinishHorizontalGesture | bge/bge-carousel.c:1315-1378 | the loop selects the first child with an edge nearest to the middle, or its neighbour after a long drag, and keeps the selection when nothing qualifies |
| Carousel.SnapMeaning | bge/bge-carousel.c:1364-1373 | only when the selected child is still the nearest, more than 15 pixels to the right lead to the child before it and more than 15 to the left to the one after it |
| Carousel.NearestByRightEdge | bge/bge-carousel.c:1343-1362 | in a strip without gaps a child other than the first is only selected for its right edge |
| Carousel.NearestExactly | bge/bge-carousel.c:1343-1362 | in a strip without gaps, of any widths, a child is the nearest exactly when it is the first or has its right edge nearer than its left one, and no later right edge is nearer |
| Carousel.PageKept | bge/bge-carousel.c:1343-1373 | a gesture keeps the selected page exactly when: to the right, by any amount, it is the first page; to the left, the gesture is of at most 15 pixels or it is the last page, its right edge is nearer than its left one unless it is the first, and no later right edge is nearer; for pages of any widths |
| Carousel.LaidOutPageKept | bge/bge-carousel.c:854-889 | the same for the strip that the carousel itself laid out under a scroll or a drag by any real number; for a page wide enough that the middle of the view is still inside it only the 15 pixels and being the last page count |
| Carousel.OnePixel | bge/bge-carousel.c:1343-1373 | with three pages as wide as the view one pixel to the right turns back a page, and one pixel to the left does not turn |

## Left out

- Widgets, dialogs, styling, property boilerplate and the other programs of the repository (the daemon, authentication, age ratings, categories): finite tables or glue around libraries.
- Entries whose id, unique id or checksum is NULL: replacing them returns at once.
- Each backend notification is handled as one step; what other fibers do to the tables while one handler awaits a read of the entry cache is not part of the model.
- The position at which a group is inserted into the list of installed applications (sorted by title) and the per-group counters: only membership, without duplicates, is modelled. `bz_entry_group_*` members appear by what the handlers use of them.
- `bz_entry_append_addon` and the tables by name (`usr_name_to_addons`): the same queueing by full ref, without the two kinds of delivery.
- The stages of the group filter before the priority rules (end of life, hidden ids, text blocklists), and compiling the rules: a rule is the set of ids it matches.
- A NULL array and an empty array of permissions are the same value; `GBusType` is a number; flags are sets of the numbers of their enumerators.
- Strings are sequences of characters. `strcmp` is modelled by the order of code points, which is the order of UTF-8 bytes. The answers of `fnmatch`, `g_unichar_isgraph`, `g_markup_escape_text`, regular expressions and digests are parameters.
- Types and key sets of the JSON catalog and its constant remote, publisher and policy fields: a catalog is a value that already has the right shape, so `ValidateCatalog` covers what the loops decide.
- HTTP, subprocesses, OSTree and Flatpak commands, signing, and writing files: `resolve_catalog` and `download_asset` get their replies as parameters; commands are values. Parsing XML and compressing it, and the icons that `validate_appstream_checkout` looks for, are not part of the model.
- `DownloadAsset` takes an asset name without a slash; with one the target would be in a directory of its own.
- Markdown images, tables, HTML, wiki links and LaTeX; the signal for inline images; the indentation that is counted but not used. md4c itself is not part of the model: a document is any tree whose leaf blocks have no child blocks, and its events are the well-nested ones. After a failed assertion nothing is said about the context.
- Spring formulas: duration, elapsed time and value of a spring are answers from outside. The order in which one frame calls the callbacks of different springs is not modelled, nor callbacks that call back into the registry, nor use of the object after dispose.
- Cancelling a fiber of the scheduler while it waits for a slot, and counters near the limit of `guint` (a run has fewer loads than that). The contents that a load reads and writes are not modelled, only its slots. In `TextureRetry` the texture cache is an answer from outside.
- Carousel: the order of the widgets among their siblings, focus, the vertical axis of gestures, and integer overflow of pixel positions. A spring that was cancelled by a resize may still deliver its old end value if animations are switched off before the next frame; `Aim` takes it to be gone. Reading the array of widgets past its end is the result `false` of a method; nothing is said after it.
- FinishHorizontalGesture: positions are real numbers, so rounding of floats is not modelled.
- ResolveCatalog: the digest of the catalog and the copied release dates are not modelled.
- ReleaseCatalog.ValidateCatalog: does not model the key sets and types of the JSON, nor the fixed remote, publisher and policy fields, because a catalog is a value that already has the right shape.
- ReleaseCatalog.ValidateApp: does not model the key sets and types of an application entry, for the same reason.
- MarkdownRender.ParseCtx.TerminateBlock: does not model tables, header cells and HTML blocks.
- MarkdownRender.ParseCtx.EnterBlock: does not model the start of a table.
- MarkdownRender.ParseCtx.Inlines: does not model images and the spans that the callbacks refuse.
- Carousel.PageKept: says nothing of children that are drawn smaller than their slots, because they share no edge with their neighbours.
