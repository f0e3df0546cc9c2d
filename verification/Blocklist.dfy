/** The blocklist stage of the filter that decides which application groups are shown. */
module Blocklist {
  import opened Order

  /** A compiled regular expression, as the set of ids it matches. */
  type Regex = string -> bool

  datatype Rule = Rule(priority: int, block: Option<Regex>, allow: Option<Regex>)

  predicate Allows(r: Rule, id: string) {
    r.allow.Some? && r.allow.value(id)
  }

  predicate Blocks(r: Rule, id: string) {
    r.block.Some? && r.block.value(id)
  }

  /** All rules of the loaded files. */
  function Flat(files: seq<seq<Rule>>): seq<Rule> {
    if files == [] then [] else Flat(files[..|files|-1]) + files[|files|-1]
  }

  /** What the stage promises: whatever rule blocks the id, some rule of the same or smaller
      priority allows it. A rule of priority G_MAXINT is never looked at. */
  ghost predicate Shown(rules: seq<Rule>, id: string) {
    forall b :: b in rules && Blocks(b, id) && b.priority < G_MAXINT ==>
      exists a :: a in rules && Allows(a, id) && a.priority <= b.priority
  }

  /** `p` is the least priority of the rules that match, or G_MAXINT. */
  ghost predicate Least(rules: seq<Rule>, matches: Rule -> bool, p: int) {
    && p <= G_MAXINT
    && (forall r :: r in rules && matches(r) ==> p <= r.priority)
    && (p < G_MAXINT ==> exists r :: r in rules && matches(r) && r.priority == p)
  }

  lemma LeastDecides(rules: seq<Rule>, id: string, allowed: int, blocked: int)
    requires Least(rules, r => Allows(r, id), allowed) && Least(rules, r => Blocks(r, id), blocked)
    ensures allowed <= blocked <==> Shown(rules, id)
  {
  }

  lemma LeastStep(rules: seq<Rule>, matches: Rule -> bool, p: int, r: Rule)
    requires Least(rules, matches, p)
    ensures Least(rules + [r], matches, if r.priority < p && matches(r) then r.priority else p)
  {
  }

  lemma LeastOfNone(matches: Rule -> bool)
    ensures Least([], matches, G_MAXINT)
  {
  }

  /** The inner loop: the rules of one file, after those of the files `before` it. */
  method ReadFile(ghost before: seq<Rule>, file: seq<Rule>, id: string, allowed0: int, blocked0: int)
    returns (allowedPriority: int, blockedPriority: int)
    requires Least(before, r => Allows(r, id), allowed0) && Least(before, r => Blocks(r, id), blocked0)
    ensures Least(before + file, r => Allows(r, id), allowedPriority) &&
        Least(before + file, r => Blocks(r, id), blockedPriority)
  {
    hide Least;
    allowedPriority, blockedPriority := allowed0, blocked0;
    ghost var allows: Rule -> bool, blocks: Rule -> bool := r => Allows(r, id), r => Blocks(r, id);
    assert before + file[..0] == before;
    for j := 0 to |file|
      invariant Least(before + file[..j], allows, allowedPriority) && Least(before + file[..j], blocks, blockedPriority)
    {
      var data := file[j];
      LeastStep(before + file[..j], allows, allowedPriority, data);
      LeastStep(before + file[..j], blocks, blockedPriority, data);
      assert before + file[..j+1] == before + file[..j] + [data];
      if data.allow.Some? && data.priority < allowedPriority && data.allow.value(id) {
        allowedPriority := data.priority;
      }
      if data.block.Some? && data.priority < blockedPriority && data.block.value(id) {
        blockedPriority := data.priority;
      }
    }
    assert file[..|file|] == file;
  }

  /** The two nested loops over files and rules, with their running minima. */
  method ValidateBlocklists(files: seq<seq<Rule>>, id: string) returns (shown: bool)
    ensures shown <==> Shown(Flat(files), id)
  {
    var allowedPriority, blockedPriority := G_MAXINT, G_MAXINT;
    hide Least;
    ghost var allows: Rule -> bool, blocks: Rule -> bool := r => Allows(r, id), r => Blocks(r, id);
    LeastOfNone(allows);
    LeastOfNone(blocks);
    for i := 0 to |files|
      invariant Least(Flat(files[..i]), allows, allowedPriority) && Least(Flat(files[..i]), blocks, blockedPriority)
    {
      PrefixStep(files, i);
      allowedPriority, blockedPriority := ReadFile(Flat(files[..i]), files[i], id, allowedPriority, blockedPriority);
    }
    assert files[..|files|] == files;
    LeastDecides(Flat(files), id, allowedPriority, blockedPriority);
    shown := allowedPriority <= blockedPriority;
  }

  ghost predicate InFiles(files: seq<seq<Rule>>, r: Rule) {
    exists f :: f in files && r in f
  }

  lemma {:induction false} FlatMembers(files: seq<seq<Rule>>, r: Rule)
    ensures r in Flat(files) <==> InFiles(files, r)
  {
    if files != [] {
      var n := |files| - 1;
      FlatMembers(files[..n], r);
      assert files == files[..n] + [files[n]];
      assert forall f :: f in files <==> f in files[..n] || f == files[n];
    }
  }

  /** Only which rules are loaded matters, not the order of files or of rules inside a file. */
  lemma OrderOfRules(files: seq<seq<Rule>>, others: seq<seq<Rule>>, id: string)
    requires forall r :: InFiles(files, r) <==> InFiles(others, r)
    ensures Shown(Flat(files), id) <==> Shown(Flat(others), id)
  {
    forall r
      ensures r in Flat(files) <==> r in Flat(others)
    {
      FlatMembers(files, r);
      FlatMembers(others, r);
    }
  }

  /** Another allow rule never hides an application; another block rule never shows one. */
  lemma MoreRules(rules: seq<Rule>, r: Rule, id: string)
    ensures r.block.None? && Shown(rules, id) ==> Shown(rules + [r], id)
    ensures r.allow.None? && Shown(rules + [r], id) ==> Shown(rules, id)
  {
  }
}
