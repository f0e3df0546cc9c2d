/** Downloading release assets through a cache whose files nobody vouches for. */
module ReleaseDownload {
  import opened Order
  import opened ReleaseResolve

  type Bytes = seq<bv8>

  /** What comes over the network: an error after some bytes, or the whole body. */
  datatype Reply = Breaks(received: Bytes) | Body(content: Bytes)

  type Files = map<string, Bytes>

  function Str(n: int): string {
    if n < 0 then "-" + Decimal(-n) else Decimal(n)
  }

  function TargetOf(a: RAsset): string {
    Str(a.assetId) + "-" + a.name
  }

  function PartialOf(a: RAsset): string {
    "." + TargetOf(a) + ".partial"
  }

  predicate Matches(a: RAsset, sha: Bytes -> string, content: Bytes) {
    |content| == a.size && sha(content) == a.sha256
  }

  /** The file that the asset asks for is there. */
  predicate Verified(a: RAsset, sha: Bytes -> string, files: Files) {
    TargetOf(a) in files && Matches(a, sha, files[TargetOf(a)])
  }

  function Download(files: Files, a: RAsset, sha: Bytes -> string, reply: Reply): (Files, bool) {
    if Verified(a, sha, files) then (files, true)
    else
      var rest := files - {TargetOf(a), PartialOf(a)};
      if reply.Body? && Matches(a, sha, reply.content) then (rest[TargetOf(a) := reply.content], true)
      else (rest, false)
  }

  // ----- one download

  /** Whatever the cache held and whatever the network sent: success means that the file is there
      with the size and digest of the asset, and failure that the cache holds nothing for it. */
  lemma SuccessIsVerified(files: Files, a: RAsset, sha: Bytes -> string, reply: Reply)
    ensures var (after, ok) := Download(files, a, sha, reply);
            && (ok <==> Verified(a, sha, after))
            && (!ok ==> TargetOf(a) !in after)
            && (ok <==> Verified(a, sha, files) || (reply.Body? && Matches(a, sha, reply.content)))
  {
  }

  /** Asking again for what was downloaded fetches nothing and changes nothing. */
  lemma SecondTimeFromTheCache(files: Files, a: RAsset, sha: Bytes -> string, reply: Reply, again: Reply)
    ensures var (after, ok) := Download(files, a, sha, reply);
            ok ==> Download(after, a, sha, again) == (after, true)
  {
  }

  /** What a download does to the directory: nothing when the file is verified; otherwise the partial
      file is gone, the file is the body that came if it is what was reviewed, and gone if not; no
      other file changes. */
  lemma DownloadMeans(files: Files, a: RAsset, sha: Bytes -> string, reply: Reply)
    ensures var (after, ok) := Download(files, a, sha, reply);
            var good := reply.Body? && |reply.content| == a.size && sha(reply.content) == a.sha256;
      && (Verified(a, sha, files) ==> after == files)
      && (!Verified(a, sha, files) && good ==> TargetOf(a) in after && after[TargetOf(a)] == reply.content)
      && (!Verified(a, sha, files) && !good ==> TargetOf(a) !in after)
      && (!Verified(a, sha, files) ==> PartialOf(a) !in after)
      && (forall f | f != TargetOf(a) && f != PartialOf(a) ::
           (f in after <==> f in files) && (f in files ==> after[f] == files[f]))
  {
    PartialIsLonger(a);
  }

  lemma PartialIsLonger(a: RAsset)
    ensures PartialOf(a) != TargetOf(a)
  {
    assert |PartialOf(a)| == |TargetOf(a)| + 9;
  }

  // ----- the names of the files

  /** The file is called by id and name, and its partial file has a name of its own. */
  lemma FileNames(a: RAsset, b: RAsset)
    requires a.assetId > 0 && b.assetId > 0
    ensures TargetOf(a) == Decimal(a.assetId) + "-" + a.name
    ensures PartialOf(a) == PartialOf(b) <==> TargetOf(a) == TargetOf(b)
    ensures PartialOf(a) != TargetOf(b)
  {
    PartialIsNoTarget(a, b);
    hide TargetOf;
    assert PartialOf(a)[1..][..|TargetOf(a)|] == TargetOf(a);
    assert PartialOf(b)[1..][..|TargetOf(b)|] == TargetOf(b);
  }

  lemma {:induction false} DecimalHasDigits(n: nat)
    ensures Decimal(n) != "" && forall i :: 0 <= i < |Decimal(n)| ==> '0' <= Decimal(n)[i] <= '9'
  {
    if n >= 10 {
      DecimalHasDigits(n / 10);
    }
  }

  lemma {:induction false} DecimalInjective(m: nat, n: nat)
    requires Decimal(m) == Decimal(n)
    ensures m == n
  {
    DecimalHasDigits(m / 10);
    DecimalHasDigits(n / 10);
    var s, t := Decimal(m), Decimal(n);
    assert s[|s|-1] == ('0' as int + m % 10) as char && t[|t|-1] == ('0' as int + n % 10) as char;
    assert m % 10 == n % 10;
    if m >= 10 && n >= 10 {
      assert s[..|s|-1] == Decimal(m / 10) && t[..|t|-1] == Decimal(n / 10);
      DecimalInjective(m / 10, n / 10);
    }
  }

  /** A file name tells the id and the name of its asset. */
  lemma TargetInjective(a: RAsset, b: RAsset)
    requires a.assetId > 0 && b.assetId > 0
    ensures TargetOf(a) == TargetOf(b) <==> a.assetId == b.assetId && a.name == b.name
  {
    if TargetOf(a) == TargetOf(b) {
      DecimalHasDigits(a.assetId);
      DecimalHasDigits(b.assetId);
      SplitAtFirst('-', Decimal(a.assetId), Decimal(b.assetId), a.name, b.name);
      DecimalInjective(a.assetId, b.assetId);
    }
  }

  lemma PartialIsNoTarget(a: RAsset, b: RAsset)
    requires b.assetId > 0
    ensures PartialOf(a) != TargetOf(b)
  {
    DecimalHasDigits(b.assetId);
    assert PartialOf(a)[0] == '.' && TargetOf(b)[0] == Decimal(b.assetId)[0];
  }

  /** A download leaves the file of every other asset alone. */
  lemma OthersUntouched(files: Files, a: RAsset, b: RAsset, sha: Bytes -> string, reply: Reply)
    requires a.assetId > 0 && b.assetId > 0 && TargetOf(a) != TargetOf(b)
    ensures Verified(b, sha, Download(files, a, sha, reply).0) <==> Verified(b, sha, files)
  {
    PartialIsNoTarget(a, b);
  }

  // ----- all assets, one after the other

  /** The cache after a run of downloads, if none of them failed. */
  function DownloadAll(files: Files, assets: seq<RAsset>, sha: Bytes -> string, replies: seq<Reply>): Option<Files>
    requires |replies| == |assets|
    decreases |assets|
  {
    if assets == [] then Some(files)
    else
      var n := |assets| - 1;
      match DownloadAll(files, assets[..n], sha, replies[..n])
      case None => None
      case Some(before) =>
        var (after, ok) := Download(before, assets[n], sha, replies[n]);
        if ok then Some(after) else None
  }

  predicate SameName(a: RAsset, b: RAsset) {
    a.assetId == b.assetId && a.name == b.name
  }

  /** No two assets have the same id and name but differ in size or digest. */
  ghost predicate Agree(assets: seq<RAsset>) {
    forall i, j | 0 <= i < |assets| && 0 <= j < |assets| && SameName(assets[i], assets[j]) ::
      assets[i].size == assets[j].size && assets[i].sha256 == assets[j].sha256
  }

  lemma {:induction false} EarlierStayVerified(files: Files, assets: seq<RAsset>, sha: Bytes -> string,
      replies: seq<Reply>)
    requires |replies| == |assets| && DownloadAll(files, assets, sha, replies).Some?
    requires Agree(assets) && forall i :: 0 <= i < |assets| ==> assets[i].assetId > 0
    ensures forall i :: 0 <= i < |assets| ==> Verified(assets[i], sha, DownloadAll(files, assets, sha, replies).value)
    decreases |assets|
  {
    hide Verified, Matches, Download, TargetOf;
    if assets != [] {
      var n := |assets| - 1;
      EarlierStayVerified(files, assets[..n], sha, replies[..n]);
      var before := DownloadAll(files, assets[..n], sha, replies[..n]).value;
      SuccessIsVerified(before, assets[n], sha, replies[n]);
      forall i | 0 <= i < n
        ensures Verified(assets[i], sha, DownloadAll(files, assets, sha, replies).value)
      {
        assert assets[..n][i] == assets[i];
        TargetInjective(assets[n], assets[i]);
        if TargetOf(assets[n]) == TargetOf(assets[i]) {
          SameFile(assets[n], assets[i], sha, DownloadAll(files, assets, sha, replies).value);
        } else {
          OthersUntouched(before, assets[n], assets[i], sha, replies[n]);
        }
      }
    }
  }

  /** After a run without failures another asset's file is verified exactly when it was before or the
      run downloaded an asset of the same name. */
  lemma {:induction false} VerifiedAfter(files: Files, assets: seq<RAsset>, sha: Bytes -> string, replies: seq<Reply>,
      b: RAsset)
    requires |replies| == |assets| && DownloadAll(files, assets, sha, replies).Some?
    requires Agree(assets + [b]) && b.assetId > 0 && forall i :: 0 <= i < |assets| ==> assets[i].assetId > 0
    ensures Verified(b, sha, DownloadAll(files, assets, sha, replies).value) <==>
      Verified(b, sha, files) || exists j :: 0 <= j < |assets| && SameName(assets[j], b)
    decreases |assets|
  {
    hide Verified, Matches, Download, TargetOf;
    if assets != [] {
      var n := |assets| - 1;
      AgreeLess(assets, b);
      VerifiedAfter(files, assets[..n], sha, replies[..n], b);
      var before := DownloadAll(files, assets[..n], sha, replies[..n]).value;
      SuccessIsVerified(before, assets[n], sha, replies[n]);
      TargetInjective(assets[n], b);
      if TargetOf(assets[n]) == TargetOf(b) {
        assert SameName((assets + [b])[n], (assets + [b])[n+1]);
        SameFile(assets[n], b, sha, DownloadAll(files, assets, sha, replies).value);
      } else {
        OthersUntouched(before, assets[n], b, sha, replies[n]);
      }
      assert forall j :: 0 <= j < n ==> assets[..n][j] == assets[j];
    }
  }

  lemma AgreeLess(assets: seq<RAsset>, b: RAsset)
    requires assets != [] && Agree(assets + [b])
    ensures Agree(assets[..|assets|-1] + [b]) && Agree(assets)
  {
    var n := |assets| - 1;
    var s, t := assets + [b], assets[..n] + [b];
    assert forall i :: 0 <= i < |t| ==> t[i] == s[if i < n then i else n + 1];
    assert forall i :: 0 <= i < |assets| ==> assets[i] == s[i];
  }

  /** A run of downloads succeeds exactly when each of its files is there already, is downloaded
      earlier in the run, or comes as it was reviewed. */
  lemma {:induction false} AllDownloadedExactly(files: Files, assets: seq<RAsset>, sha: Bytes -> string,
      replies: seq<Reply>)
    requires |replies| == |assets| && Agree(assets) && forall i :: 0 <= i < |assets| ==> assets[i].assetId > 0
    ensures DownloadAll(files, assets, sha, replies).Some? <==>
      forall i :: 0 <= i < |assets| ==> Obtained(files, assets, sha, replies, i)
    decreases |assets|
  {
    hide Verified, Matches, Download, TargetOf, Agree;
    if assets != [] {
      var n := |assets| - 1;
      AgreeFewer(assets);
      AllDownloadedExactly(files, assets[..n], sha, replies[..n]);
      assert forall j :: 0 <= j < n ==> assets[..n][j] == assets[j] && replies[..n][j] == replies[j];
      forall i | 0 <= i < n
        ensures Obtained(files, assets[..n], sha, replies[..n], i) <==> Obtained(files, assets, sha, replies, i)
      {
      }
      if DownloadAll(files, assets[..n], sha, replies[..n]).Some? {
        assert assets[..n] + [assets[n]] == assets;
        VerifiedAfter(files, assets[..n], sha, replies[..n], assets[n]);
        SuccessIsVerified(DownloadAll(files, assets[..n], sha, replies[..n]).value, assets[n], sha, replies[n]);
        assert (exists j :: 0 <= j < n && SameName(assets[..n][j], assets[n])) <==>
               (exists j :: 0 <= j < n && SameName(assets[j], assets[n]));
        assert DownloadAll(files, assets, sha, replies).Some? <==> Obtained(files, assets, sha, replies, n);
      }
      hide Obtained;
    }
  }

  lemma AgreeFewer(assets: seq<RAsset>)
    requires assets != [] && Agree(assets)
    ensures Agree(assets[..|assets|-1])
  {
  }

  ghost predicate Obtained(files: Files, assets: seq<RAsset>, sha: Bytes -> string, replies: seq<Reply>, i: nat)
    requires i < |assets| == |replies|
  {
    || Verified(assets[i], sha, files)
    || (exists j :: 0 <= j < i && SameName(assets[j], assets[i]))
    || (replies[i].Body? && Matches(assets[i], sha, replies[i].content))
  }

  lemma SameFile(a: RAsset, b: RAsset, sha: Bytes -> string, files: Files)
    requires TargetOf(a) == TargetOf(b) && a.size == b.size && a.sha256 == b.sha256
    ensures Verified(a, sha, files) <==> Verified(b, sha, files)
  {
  }

  /** After a run without failures, from any cache, the files of all its assets are there and
      verified at the same time exactly when no two assets ask for different contents of one file. */
  lemma AllVerifiedTogether(files: Files, assets: seq<RAsset>, sha: Bytes -> string, replies: seq<Reply>)
    requires |replies| == |assets| && DownloadAll(files, assets, sha, replies).Some?
    requires forall i :: 0 <= i < |assets| ==> assets[i].assetId > 0
    ensures (forall i :: 0 <= i < |assets| ==>
               Verified(assets[i], sha, DownloadAll(files, assets, sha, replies).value))
            <==> Agree(assets)
  {
    hide DownloadAll;
    var after := DownloadAll(files, assets, sha, replies).value;
    if Agree(assets) {
      EarlierStayVerified(files, assets, sha, replies);
    }
    if forall i :: 0 <= i < |assets| ==> Verified(assets[i], sha, after) {
      forall i, j | 0 <= i < |assets| && 0 <= j < |assets| && assets[i].assetId == assets[j].assetId &&
          assets[i].name == assets[j].name
        ensures assets[i].size == assets[j].size && assets[i].sha256 == assets[j].sha256
      {
        assert Verified(assets[i], sha, after) && Verified(assets[j], sha, after);
      }
    }
  }

  // ----- the directory

  class Cache {
    var files: Files

    constructor (files: Files)
      ensures this.files == files
    {
      this.files := files;
    }

    /** The first lines of download_asset: a verified file is kept, anything else is removed. */
    method Reuse(a: RAsset, sha: Bytes -> string) returns (found: bool)
      modifies this
      ensures found <==> Verified(a, sha, old(files))
      ensures files == if found then old(files) else old(files) - {TargetOf(a), PartialOf(a)}
    {
      var target, partial := TargetOf(a), PartialOf(a);
      assert |partial| > |target|;
      hide TargetOf, PartialOf;
      if target in files {
        if |files[target]| == a.size && sha(files[target]) == a.sha256 {
          return true;
        }
        files := files - {target};
      }
      if partial in files {
        files := files - {partial};
      }
      return false;
    }

    /** The partial file is checked before it takes the place of the target. */
    method Fetch(a: RAsset, sha: Bytes -> string, reply: Reply) returns (ok: bool)
      requires TargetOf(a) !in files && PartialOf(a) !in files
      modifies this
      ensures ok <==> reply.Body? && Matches(a, sha, reply.content)
      ensures files == if ok then old(files)[TargetOf(a) := reply.content] else old(files)
    {
      var target, partial := TargetOf(a), PartialOf(a);
      assert |partial| > |target|;
      hide TargetOf, PartialOf;
      match reply
      case Breaks(received) =>
        files := files[partial := received];
        files := files - {partial};
        return false;
      case Body(content) =>
        files := files[partial := content];
        if |content| != a.size || sha(files[partial]) != a.sha256 {
          files := files - {partial};
          return false;
        }
        var moved := files[partial];
        files := (files - {partial})[target := moved];
        return true;
    }

    /** download_asset; false stands for a CatalogError. */
    method DownloadAsset(a: RAsset, sha: Bytes -> string, reply: Reply) returns (ok: bool)
      modifies this
      ensures (files, ok) == Download(old(files), a, sha, reply)
    {
      ok := Reuse(a, sha);
      if !ok {
        ok := Fetch(a, sha, reply);
      }
    }
  }
}
