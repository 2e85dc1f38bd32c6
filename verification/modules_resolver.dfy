/** Choosing the modules to install and installing them
    (lib/src/modules/mod.rs). The module map is the id-keyed
    `HashMap<String, ModuleInfo>` read from `modules.json`. */
module Modules {
  import opened Wrappers
  import opened Catalog
  import opened ModulesInfo

  type ModuleMap = map<string, ModuleInfo>

  /** The ids of the records of `s`. */
  function Ids(s: seq<ModuleInfo>): set<string>
    decreases |s|
  {
    if s == [] then {} else Ids(s[..|s| - 1]) + {s[|s| - 1].id}
  }

  lemma IdsAppend(s: seq<ModuleInfo>, m: ModuleInfo)
    ensures Ids(s + [m]) == Ids(s) + {m.id}
  {
    assert (s + [m])[..|s|] == s;
  }

  lemma {:induction false} IdsPrefix(s: seq<ModuleInfo>, t: seq<ModuleInfo>)
    requires |s| <= |t| && t[..|s|] == s
    ensures Ids(s) <= Ids(t)
    decreases |t|
  {
    if |s| < |t| {
      assert t[..|t| - 1][..|s|] == s;
      IdsPrefix(s, t[..|t| - 1]);
    } else {
      assert t == s;
    }
  }

  lemma {:induction false} IdsMember(s: seq<ModuleInfo>, i: nat)
    requires i < |s|
    ensures s[i].id in Ids(s)
    decreases |s|
  {
    if i < |s| - 1 {
      assert s[..|s| - 1][i] == s[i];
      IdsMember(s[..|s| - 1], i);
    }
  }

  lemma {:induction false} IdsWitness(s: seq<ModuleInfo>, x: string) returns (i: nat)
    requires x in Ids(s)
    ensures i < |s| && s[i].id == x
    decreases |s|
  {
    if s[|s| - 1].id == x {
      i := |s| - 1;
    } else {
      i := IdsWitness(s[..|s| - 1], x);
      assert s[..|s| - 1][i] == s[i];
    }
  }

  /** The preconditions `push_module_to_install` relies on when it indexes
      the map without checking (mod.rs:68, :77), plus acyclicity, witnessed
      by `rank`:
      - every record is stored under its own id, and no id is empty (the
        empty string is the "no parent" marker);
      - a non-empty parent is a key, ranked below its child;
      - every submodule id is a key whose record names this module as its
        parent, ranked above it. */
  ghost predicate Ranked(info: ModuleMap, rank: map<string, nat>)
  {
    && rank.Keys == info.Keys
    && "" !in info
    && (forall x :: x in info ==> info[x].id == x && rank[x] < |info|)
    && (forall x :: x in info && info[x].parent != "" ==>
          info[x].parent in info && rank[info[x].parent] < rank[x])
    && (forall x :: x in info && info[x].subModules.Some? ==>
          forall s :: s in info[x].subModules.value ==>
            s.id in info && info[s.id].parent == x && rank[x] < rank[s.id])
  }

  /** 1 when resolving `id` first resolves its parent. */
  ghost function Phase(info: ModuleMap, id: string): nat
  {
    if id in info && info[id].parent != "" && info[id].parent in info && !info[info[id].parent].selected then 1 else 0
  }

  /** Climbs towards the root while parents are resolved first, and
      descends the forest otherwise. */
  ghost function Height(info: ModuleMap, rank: map<string, nat>, id: string): nat
  {
    if id !in rank then 0
    else if Phase(info, id) == 1 then rank[id]
    else if rank[id] < |info| then |info| - rank[id] else 0
  }

  lemma {:induction false} SubsetCard(a: set<string>, b: set<string>)
    requires a <= b
    ensures |a| <= |b|
    decreases |b|
  {
    if a != {} {
      var x :| x in a;
      SubsetCard(a - {x}, b - {x});
    }
  }

  lemma UnlistedShrinks(keys: set<string>, a: set<string>, b: set<string>, x: string)
    requires a <= b
    ensures |keys - b| <= |keys - a|
    ensures x in keys && x in b && x !in a ==> |keys - b| < |keys - a|
  {
    SubsetCard(keys - b, keys - a);
    if x in keys && x in b && x !in a {
      SubsetCard(keys - b, (keys - a) - {x});
    }
  }

  /** Whether a submodule is visited: with children included, or when it
      syncs with the module being resolved (mod.rs:78). */
  predicate Qualifies(info: ModuleMap, id: string, child: string, includeChildren: bool)
    requires child in info
  {
    includeChildren || info[child].sync == id
  }

  /** The map's own record for its id, not yet selected. */
  predicate InMapUnselected(info: ModuleMap, m: ModuleInfo)
  {
    m.id in info && m == info[m.id] && !m.selected
  }

  /** Every record from index `from` on is the map's record for its id, and
      is not yet selected. */
  predicate FromMapUnselected(info: ModuleMap, s: seq<ModuleInfo>, from: nat)
    decreases |s|
  {
    |s| <= from || (FromMapUnselected(info, s[..|s| - 1], from) && InMapUnselected(info, s[|s| - 1]))
  }

  lemma {:induction false} FromMapUnselectedConcat(info: ModuleMap, out: seq<ModuleInfo>, next: seq<ModuleInfo>, from: nat)
    requires from <= |out| <= |next| && next[..|out|] == out
    requires FromMapUnselected(info, out, from) && FromMapUnselected(info, next, |out|)
    ensures FromMapUnselected(info, next, from)
    decreases |next|
  {
    if |out| < |next| {
      assert next[..|next| - 1][..|out|] == out;
      FromMapUnselectedConcat(info, out, next[..|next| - 1], from);
    } else {
      assert next == out;
    }
  }

  /** A record's parent is either absent, already selected, or earlier in
      the list. */
  predicate ParentOk(info: ModuleMap, before: seq<ModuleInfo>, m: ModuleInfo)
  {
    m.parent == "" || (m.parent in info && info[m.parent].selected) || m.parent in Ids(before)
  }

  /** Every record's parent is absent, selected, or listed before it. */
  predicate ParentsFirst(info: ModuleMap, s: seq<ModuleInfo>)
    decreases |s|
  {
    s == [] || (ParentsFirst(info, s[..|s| - 1]) && ParentOk(info, s[..|s| - 1], s[|s| - 1]))
  }

  lemma ParentsFirstAppend(info: ModuleMap, s: seq<ModuleInfo>, m: ModuleInfo)
    requires ParentsFirst(info, s) && ParentOk(info, s, m)
    ensures ParentsFirst(info, s + [m])
  {
    assert (s + [m])[..|s|] == s;
  }

  /** No id occurs twice. */
  predicate NoDuplicates(s: seq<ModuleInfo>)
    decreases |s|
  {
    s == [] || (NoDuplicates(s[..|s| - 1]) && s[|s| - 1].id !in Ids(s[..|s| - 1]))
  }

  lemma NoDuplicatesAppend(s: seq<ModuleInfo>, m: ModuleInfo)
    requires NoDuplicates(s) && m.id !in Ids(s)
    ensures NoDuplicates(s + [m])
  {
    assert (s + [m])[..|s|] == s;
  }

  /** No id occurs twice, stated over positions. */
  lemma {:induction false} NoDuplicatesDistinct(s: seq<ModuleInfo>, i: nat, j: nat)
    requires NoDuplicates(s) && i < j < |s|
    ensures s[i].id != s[j].id
    decreases |s|
  {
    assert s[..|s| - 1][i] == s[i];
    if j == |s| - 1 {
      IdsMember(s[..|s| - 1], i);
    } else {
      assert s[..|s| - 1][j] == s[j];
      NoDuplicatesDistinct(s[..|s| - 1], i, j);
    }
  }

  /** `a` is `x` or one of its ancestors. */
  ghost predicate AncestorOrSelf(info: ModuleMap, rank: map<string, nat>, a: string, x: string)
    requires Ranked(info, rank)
    decreases if x in rank then rank[x] else 0
  {
    a == x || (x in info && info[x].parent != "" && AncestorOrSelf(info, rank, a, info[x].parent))
  }

  /** Climbs from `x` while a module syncs with its parent. */
  ghost function SyncTop(info: ModuleMap, rank: map<string, nat>, x: string): (t: string)
    requires Ranked(info, rank)
    ensures t in info ==> !(info[t].parent != "" && info[t].sync == info[t].parent)
    decreases if x in rank then rank[x] else 0
  {
    if x in info && info[x].parent != "" && info[x].sync == info[x].parent
    then SyncTop(info, rank, info[x].parent)
    else x
  }

  lemma {:induction false} SyncTopIsAncestor(info: ModuleMap, rank: map<string, nat>, x: string)
    requires Ranked(info, rank)
    ensures AncestorOrSelf(info, rank, SyncTop(info, rank, x), x)
    decreases if x in rank then rank[x] else 0
  {
    if x in info && info[x].parent != "" && info[x].sync == info[x].parent {
      SyncTopIsAncestor(info, rank, info[x].parent);
    }
  }

  /** An ancestor-or-self of `x` that is not `x` is one of its parent. */
  lemma AncestorOfChild(info: ModuleMap, rank: map<string, nat>, a: string, x: string)
    requires Ranked(info, rank) && AncestorOrSelf(info, rank, a, x) && a != x
    ensures x in info && info[x].parent != "" && AncestorOrSelf(info, rank, a, info[x].parent)
  {
  }

  lemma {:induction false} AncestorRankBelow(info: ModuleMap, rank: map<string, nat>, a: string, x: string)
    requires Ranked(info, rank) && x in info && AncestorOrSelf(info, rank, a, x)
    ensures a in info && rank[a] <= rank[x]
    decreases rank[x]
  {
    if a != x {
      AncestorRankBelow(info, rank, a, info[x].parent);
    }
  }

  /** The situation in which the parent recursion re-adds a module that is
      then pushed again: some module on the chain of unselected, unlisted
      parents syncs with its parent. */
  ghost predicate Hazard(info: ModuleMap, rank: map<string, nat>, s: seq<ModuleInfo>, x: string)
    requires Ranked(info, rank)
    decreases if x in rank then rank[x] else 0
  {
    && x in info && x !in Ids(s)
    && var p := info[x].parent;
       && p != "" && !info[p].selected && p !in Ids(s)
       && (info[x].sync == p || Hazard(info, rank, s, p))
  }

  /** A longer list only makes the hazard harder to meet: it needs `x`
      and the parents on its chain to be unlisted. */
  lemma {:induction false} HazardAntitone(info: ModuleMap, rank: map<string, nat>, s: seq<ModuleInfo>, x: string)
    requires Ranked(info, rank)
    ensures Hazard(info, rank, s, x) ==> Hazard(info, rank, [], x)
    decreases if x in rank then rank[x] else 0
  {
    if Hazard(info, rank, s, x) && info[x].sync != info[x].parent {
      HazardAntitone(info, rank, s, info[x].parent);
    }
  }

  function CountId(s: seq<ModuleInfo>, id: string): nat
    decreases |s|
  {
    if s == [] then 0 else CountId(s[..|s| - 1], id) + (if s[|s| - 1].id == id then 1 else 0)
  }

  lemma {:induction false} CountIdPositive(s: seq<ModuleInfo>, id: string)
    requires id in Ids(s)
    ensures CountId(s, id) >= 1
    decreases |s|
  {
    if s[|s| - 1].id != id {
      CountIdPositive(s[..|s| - 1], id);
    }
  }

  lemma {:induction false} CountIdPrefix(s: seq<ModuleInfo>, t: seq<ModuleInfo>, id: string)
    requires |s| <= |t| && t[..|s|] == s
    ensures CountId(s, id) <= CountId(t, id)
    decreases |t|
  {
    if |s| < |t| {
      assert t[..|t| - 1][..|s|] == s;
      CountIdPrefix(s, t[..|t| - 1], id);
    } else {
      assert t == s;
    }
  }

  /** The ids of a record's submodules. */
  function SubIds(m: ModuleInfo): set<string>
  {
    if m.subModules.Some? then set d | d in m.subModules.value :: d.id else {}
  }

  /** A module requested while its unselected, unlisted parent lists it as
      a submodule that syncs with it: resolving the parent pushes the
      module through the sync rule, and the module is then pushed again. */
  predicate DuplicateCase(info: ModuleMap, list: seq<ModuleInfo>, id: string)
  {
    && id in info && id !in Ids(list) && !info[id].selected
    && var p := info[id].parent;
       && p != "" && p in info && info[id].sync == p && !info[p].selected && p !in Ids(list)
       && id in SubIds(info[p])
  }

  /** The ids of the records from index `from` on. */
  function AddedIds(s: seq<ModuleInfo>, from: nat): set<string>
  {
    set i | from <= i < |s| :: s[i].id
  }

  lemma AddedIdsConcat(out: seq<ModuleInfo>, next: seq<ModuleInfo>, from: nat)
    requires from <= |out| <= |next| && next[..|out|] == out
    ensures AddedIds(next, from) == AddedIds(out, from) + AddedIds(next, |out|)
  {
    forall x | x in AddedIds(next, from)
      ensures x in AddedIds(out, from) + AddedIds(next, |out|)
    {
      var i :| from <= i < |next| && next[i].id == x;
      if i < |out| {
        assert out[i] == next[i];
      }
    }
    forall x | x in AddedIds(out, from)
      ensures x in AddedIds(next, from)
    {
      var i :| from <= i < |out| && out[i].id == x;
      assert next[i] == out[i];
    }
  }

  lemma AddedIdsLast(out: seq<ModuleInfo>, m: ModuleInfo)
    ensures AddedIds(out + [m], |out|) == {m.id}
  {
    assert (out + [m])[|out|] == m;
  }

  /** An id of `s` is an id of its first `from` records or an added one. */
  lemma AddedIdsCover(s: seq<ModuleInfo>, from: nat, x: string)
    requires from <= |s| && x in Ids(s)
    ensures x in Ids(s[..from]) || x in AddedIds(s, from)
  {
    var i := IdsWitness(s, x);
    if i < from {
      assert s[..from][i] == s[i];
      IdsMember(s[..from], i);
    }
  }

  /** Every record from index `from` on climbs, through the modules it
      syncs with, to an ancestor-or-self of `a`. */
  ghost predicate UnderAncestor(info: ModuleMap, rank: map<string, nat>, s: seq<ModuleInfo>, from: nat, a: string)
    requires Ranked(info, rank)
  {
    forall x :: x in AddedIds(s, from) ==> AncestorOrSelf(info, rank, SyncTop(info, rank, x), a)
  }

  /** Every record from index `from` on is a descendant-or-self of `a`. */
  ghost predicate Descendants(info: ModuleMap, rank: map<string, nat>, s: seq<ModuleInfo>, from: nat, a: string)
    requires Ranked(info, rank)
  {
    forall x :: x in AddedIds(s, from) ==> AncestorOrSelf(info, rank, a, x)
  }

  /** Every record from index `from` on is a descendant-or-self of `a`, or
      climbs, through the modules it syncs with, to an ancestor-or-self of
      `a`. */
  ghost predicate UnderOrBelow(info: ModuleMap, rank: map<string, nat>, s: seq<ModuleInfo>, from: nat, a: string)
    requires Ranked(info, rank)
  {
    forall x :: x in AddedIds(s, from) ==>
      AncestorOrSelf(info, rank, a, x) || AncestorOrSelf(info, rank, SyncTop(info, rank, x), a)
  }

  /** The parent of `id` needs no resolving: `id` has none, or it is
      selected, or already listed. */
  ghost predicate ParentDone(info: ModuleMap, rank: map<string, nat>, list: seq<ModuleInfo>, id: string)
    requires Ranked(info, rank)
  {
    id !in info || info[id].parent == "" || info[info[id].parent].selected || info[id].parent in Ids(list)
  }

  /** A descendant-or-self of a child is a descendant-or-self of its
      parent. */
  lemma {:induction false} AncestorThroughParent(info: ModuleMap, rank: map<string, nat>, c: string, x: string)
    requires Ranked(info, rank) && c in info && info[c].parent != "" && AncestorOrSelf(info, rank, c, x)
    ensures AncestorOrSelf(info, rank, info[c].parent, x)
    decreases if x in rank then rank[x] else 0
  {
    if x != c {
      AncestorThroughParent(info, rank, c, info[x].parent);
    }
  }

  /** What a submodule that syncs with `id` adds lies under `id` too. */
  lemma UnderAncestorLift(info: ModuleMap, rank: map<string, nat>, s: seq<ModuleInfo>, from: nat,
                          c: string, id: string)
    requires Ranked(info, rank) && c in info && info[c].parent == id && info[c].sync == id && id != ""
    requires UnderAncestor(info, rank, s, from, c)
    ensures UnderAncestor(info, rank, s, from, id)
  {
    forall x | x in AddedIds(s, from)
      ensures AncestorOrSelf(info, rank, SyncTop(info, rank, x), id)
    {
      var t := SyncTop(info, rank, x);
      assert t != c;
      AncestorOfChild(info, rank, t, c);
    }
  }

  /** What a submodule adds below itself lies below its parent too. */
  lemma DescendantsLift(info: ModuleMap, rank: map<string, nat>, s: seq<ModuleInfo>, from: nat, c: string, id: string)
    requires Ranked(info, rank) && c in info && info[c].parent == id && id != ""
    requires Descendants(info, rank, s, from, c)
    ensures Descendants(info, rank, s, from, id)
  {
    forall x | x in AddedIds(s, from)
      ensures AncestorOrSelf(info, rank, id, x)
    {
      AncestorThroughParent(info, rank, c, x);
    }
  }

  /** What lies under a module's parent lies under the module. */
  lemma UnderAncestorWiden(info: ModuleMap, rank: map<string, nat>, s: seq<ModuleInfo>, from: nat, id: string)
    requires Ranked(info, rank) && id in info && info[id].parent != ""
    requires UnderAncestor(info, rank, s, from, info[id].parent)
    ensures UnderAncestor(info, rank, s, from, id)
  {
  }

  /** A descendant-or-self of `id` that climbs, through the modules it
      syncs with, to an ancestor-or-self of the parent of `id` passes
      through `id`, which therefore syncs with its parent. */
  lemma {:induction false} SyncCrosses(info: ModuleMap, rank: map<string, nat>, id: string, x: string)
    requires Ranked(info, rank) && id in info && info[id].parent != ""
    requires AncestorOrSelf(info, rank, id, x)
    requires AncestorOrSelf(info, rank, SyncTop(info, rank, x), info[id].parent)
    ensures info[id].sync == info[id].parent
    decreases if x in rank then rank[x] else 0
  {
    var p := info[id].parent;
    if x == id {
      if info[id].sync != p {
        assert SyncTop(info, rank, id) == id;
        AncestorRankBelow(info, rank, id, p);
      }
    } else {
      AncestorOfChild(info, rank, id, x);
      if info[x].sync == info[x].parent {
        SyncCrosses(info, rank, id, info[x].parent);
      } else {
        assert SyncTop(info, rank, x) == x;
        AncestorRankBelow(info, rank, x, p);
        AncestorRankBelow(info, rank, id, x);
      }
    }
  }

  /** Resolving the parent of `id` adds neither `id` nor anything below it
      unless the hazard holds, and passes the absence of the hazard on to
      the parent. */
  lemma ParentNotReadded(info: ModuleMap, rank: map<string, nat>, list: seq<ModuleInfo>, out: seq<ModuleInfo>, id: string)
    requires Ranked(info, rank) && id in info && id !in Ids(list)
    requires info[id].parent != "" && !info[info[id].parent].selected
    requires |list| <= |out| && out[..|list|] == list
    requires info[id].parent in Ids(list) ==> out == list
    requires UnderAncestor(info, rank, out, |list|, info[id].parent)
    ensures !Hazard(info, rank, list, id) ==> id !in Ids(out) && !Hazard(info, rank, list, info[id].parent)
    ensures !Hazard(info, rank, list, id) ==>
              forall x :: x in AddedIds(out, |list|) ==> !AncestorOrSelf(info, rank, id, x)
  {
    var p := info[id].parent;
    if !Hazard(info, rank, list, id) && p !in Ids(list) {
      assert info[id].sync != p;
      forall x | x in AddedIds(out, |list|)
        ensures !AncestorOrSelf(info, rank, id, x)
      {
        if AncestorOrSelf(info, rank, id, x) {
          SyncCrosses(info, rank, id, x);
        }
      }
      if id in Ids(out) {
        AddedIdsCover(out, |list|, id);
      }
    }
  }

  /** What resolving `id` promises about the list `out` it builds from
      `list`: `list` is kept as a prefix; every added record is the map's
      own, unselected record; every added module is a descendant-or-self
      of `id` or climbs, through the modules it syncs with, to an
      ancestor-or-self of `id`, and without children only the latter;
      when the parent of `id` needs no resolving, every added module is a
      descendant-or-self of `id`; parents-first order and the absence of
      duplicates are kept (the latter unless the hazard holds); and in the
      duplicate case `id` occurs twice. */
  ghost predicate Extends(info: ModuleMap, rank: map<string, nat>, list: seq<ModuleInfo>, out: seq<ModuleInfo>,
                            id: string, includeChildren: bool)
    requires Ranked(info, rank)
  {
    && |list| <= |out| && out[..|list|] == list
    && FromMapUnselected(info, out, |list|)
    && UnderOrBelow(info, rank, out, |list|, id)
    && (!includeChildren ==> UnderAncestor(info, rank, out, |list|, id))
    && (ParentDone(info, rank, list, id) ==> Descendants(info, rank, out, |list|, id))
    && (ParentsFirst(info, list) ==> ParentsFirst(info, out))
    && (NoDuplicates(list) && !Hazard(info, rank, list, id) ==> NoDuplicates(out))
    && (DuplicateCase(info, list, id) ==> CountId(out, id) >= 2)
  }

  /** What holds once the parent of `id`, if any, has been resolved: what
      was added climbs above `id`, nothing was added when the parent
      needed no resolving, and, unless the hazard holds, nothing added lies
      below `id`; `id` is not yet added (it is listed already only in the
      duplicate case), and an unselected parent is listed. */
  ghost predicate ParentStepFacts(info: ModuleMap, rank: map<string, nat>, list: seq<ModuleInfo>, out: seq<ModuleInfo>,
                                  id: string, includeChildren: bool)
    requires Ranked(info, rank) && id in info
  {
    && |list| <= |out| && out[..|list|] == list
    && FromMapUnselected(info, out, |list|)
    && UnderAncestor(info, rank, out, |list|, id)
    && (ParentDone(info, rank, list, id) ==> out == list)
    && (!Hazard(info, rank, list, id) ==> forall x :: x in AddedIds(out, |list|) ==> !AncestorOrSelf(info, rank, id, x))
    && (ParentsFirst(info, list) ==> ParentsFirst(info, out))
    && (NoDuplicates(list) && !Hazard(info, rank, list, id) ==> NoDuplicates(out) && id !in Ids(out))
    && (DuplicateCase(info, list, id) ==> id in Ids(out))
    && ParentOk(info, out, info[id])
  }

  /** Nothing added to `list` to form `s` lies below `id`, except `id`
      itself. */
  ghost predicate Clean(info: ModuleMap, rank: map<string, nat>, list: seq<ModuleInfo>, s: seq<ModuleInfo>, id: string)
    requires Ranked(info, rank)
  {
    forall x :: x in AddedIds(s, |list|) && AncestorOrSelf(info, rank, id, x) ==> x == id
  }

  /** Pushing the record of `id` after its parent step. */
  lemma AppendStep(info: ModuleMap, rank: map<string, nat>, list: seq<ModuleInfo>, out: seq<ModuleInfo>,
                   id: string, includeChildren: bool)
    requires Ranked(info, rank) && id in info && !info[id].selected
    requires ParentStepFacts(info, rank, list, out, id, includeChildren)
    ensures Extends(info, rank, list, out + [info[id]], id, includeChildren)
    ensures id in Ids(out + [info[id]])
    ensures !Hazard(info, rank, list, id) ==> Clean(info, rank, list, out + [info[id]], id)
  {
    var m := info[id];
    assert ParentsFirst(info, list) ==> ParentsFirst(info, out + [m]) by {
      if ParentsFirst(info, list) { ParentsFirstAppend(info, out, m); }
    }
    assert NoDuplicates(list) && !Hazard(info, rank, list, id) ==> NoDuplicates(out + [m]) by {
      if NoDuplicates(list) && !Hazard(info, rank, list, id) { NoDuplicatesAppend(out, m); }
    }
    assert DuplicateCase(info, list, id) ==> CountId(out + [m], id) >= 2 by {
      if DuplicateCase(info, list, id) { CountIdPositive(out, id); }
    }
    IdsAppend(out, m);
    assert (out + [m])[..|list|] == list;
    AppendAdded(info, rank, list, out, id, includeChildren);
  }

  /** What `AppendStep` adds, seen as a set: the record of `id` itself. */
  lemma AppendAdded(info: ModuleMap, rank: map<string, nat>, list: seq<ModuleInfo>, out: seq<ModuleInfo>,
                    id: string, includeChildren: bool)
    requires Ranked(info, rank) && id in info && !info[id].selected
    requires ParentStepFacts(info, rank, list, out, id, includeChildren)
    ensures FromMapUnselected(info, out + [info[id]], |list|)
    ensures UnderOrBelow(info, rank, out + [info[id]], |list|, id)
    ensures !includeChildren ==> UnderAncestor(info, rank, out + [info[id]], |list|, id)
    ensures ParentDone(info, rank, list, id) ==> Descendants(info, rank, out + [info[id]], |list|, id)
    ensures !Hazard(info, rank, list, id) ==> Clean(info, rank, list, out + [info[id]], id)
  {
    var m := info[id];
    assert (out + [m])[..|out|] == out;
    SyncTopIsAncestor(info, rank, id);
    AddedIdsConcat(out, out + [m], |list|);
    AddedIdsLast(out, m);
  }

  /** A selected module is not pushed; its parent step already gives the
      facts of `Extends`. */
  lemma SkipStep(info: ModuleMap, rank: map<string, nat>, list: seq<ModuleInfo>, out: seq<ModuleInfo>,
                 id: string, includeChildren: bool)
    requires Ranked(info, rank) && id in info && info[id].selected
    requires ParentStepFacts(info, rank, list, out, id, includeChildren)
    ensures Extends(info, rank, list, out, id, includeChildren)
    ensures !Hazard(info, rank, list, id) ==> Clean(info, rank, list, out, id)
  {
  }

  /** One qualifying submodule resolved inside the loop keeps the loop's
      facts. */
  lemma ChildStep(info: ModuleMap, rank: map<string, nat>, list: seq<ModuleInfo>, out: seq<ModuleInfo>,
                  next: seq<ModuleInfo>, id: string, c: string, includeChildren: bool)
    requires Ranked(info, rank) && id in info && c in info && info[c].parent == id
    requires Qualifies(info, id, c, includeChildren)
    requires id in Ids(out) || info[id].selected
    requires Extends(info, rank, list, out, id, includeChildren)
    requires |out| <= |next| && next[..|out|] == out
    requires FromMapUnselected(info, next, |out|)
    requires Descendants(info, rank, next, |out|, c)
    requires !includeChildren ==> UnderAncestor(info, rank, next, |out|, c)
    requires ParentsFirst(info, out) ==> ParentsFirst(info, next)
    requires NoDuplicates(out) && !Hazard(info, rank, out, c) ==> NoDuplicates(next)
    ensures Extends(info, rank, list, next, id, includeChildren)
  {
    assert next[..|list|] == next[..|out|][..|list|];
    FromMapUnselectedConcat(info, out, next, |list|);
    AddedIdsConcat(out, next, |list|);
    DescendantsLift(info, rank, next, |out|, c, id);
    if !includeChildren {
      UnderAncestorLift(info, rank, next, |out|, c, id);
    }
    assert !Hazard(info, rank, out, c);
    if DuplicateCase(info, list, id) {
      CountIdPrefix(out, next, id);
    }
  }

  /** `d` is reached from `a` by a chain of submodule links, each to a
      submodule that qualifies and is not in `s`. */
  ghost predicate Descends(info: ModuleMap, rank: map<string, nat>, s: seq<ModuleInfo>, a: string, d: string,
                           includeChildren: bool)
    requires Ranked(info, rank)
    decreases if d in rank then rank[d] else 0
  {
    || d == a
    || (&& d in info && d !in Ids(s) && info[d].parent != ""
        && d in SubIds(info[info[d].parent]) && Qualifies(info, info[d].parent, d, includeChildren)
        && Descends(info, rank, s, a, info[d].parent, includeChildren))
  }

  /** Every unselected module reached from `id` by qualifying submodule
      links not yet in `list` is listed in `out`. */
  ghost predicate Reach(info: ModuleMap, rank: map<string, nat>, list: seq<ModuleInfo>, id: string, out: seq<ModuleInfo>,
                        includeChildren: bool)
    requires Ranked(info, rank)
  {
    forall d :: d in info && Descends(info, rank, list, id, d, includeChildren) && !info[d].selected ==> d in Ids(out)
  }

  lemma {:induction false} DescendsAncestor(info: ModuleMap, rank: map<string, nat>, s: seq<ModuleInfo>, a: string,
                                            d: string, includeChildren: bool)
    requires Ranked(info, rank) && Descends(info, rank, s, a, d, includeChildren)
    ensures AncestorOrSelf(info, rank, a, d)
    decreases if d in rank then rank[d] else 0
  {
    if d != a {
      DescendsAncestor(info, rank, s, a, info[d].parent, includeChildren);
    }
  }

  /** The submodule of `a` on the way down to its descendant `x`. */
  ghost function ChildUnder(info: ModuleMap, rank: map<string, nat>, a: string, x: string): (c: string)
    requires Ranked(info, rank) && AncestorOrSelf(info, rank, a, x) && x != a
    ensures c in info && info[c].parent == a && AncestorOrSelf(info, rank, c, x)
    decreases if x in rank then rank[x] else 0
  {
    if info[x].parent == a then x else ChildUnder(info, rank, a, info[x].parent)
  }

  /** Below a module whose parent is `a`, that module is the way down. */
  lemma {:induction false} ChildUnderOf(info: ModuleMap, rank: map<string, nat>, a: string, c: string, x: string)
    requires Ranked(info, rank) && c in info && info[c].parent == a && a != "" && AncestorOrSelf(info, rank, c, x)
    ensures AncestorOrSelf(info, rank, a, x) && x != a && ChildUnder(info, rank, a, x) == c
    decreases if x in rank then rank[x] else 0
  {
    AncestorThroughParent(info, rank, c, x);
    if x != c {
      AncestorOfChild(info, rank, c, x);
      ChildUnderOf(info, rank, a, c, info[x].parent);
    }
    AncestorRankBelow(info, rank, c, x);
  }

  /** A chain from `a` down to `d` starts with a qualifying submodule of
      `a` that is not in `s`, and continues from there. */
  lemma {:induction false} DescendsVia(info: ModuleMap, rank: map<string, nat>, s: seq<ModuleInfo>, a: string, d: string,
                                       includeChildren: bool)
    requires Ranked(info, rank) && Descends(info, rank, s, a, d, includeChildren) && d != a
    ensures AncestorOrSelf(info, rank, a, d)
    ensures var c := ChildUnder(info, rank, a, d);
            && a in info && c in SubIds(info[a]) && Qualifies(info, a, c, includeChildren) && c !in Ids(s)
            && Descends(info, rank, s, c, d, includeChildren)
    decreases if d in rank then rank[d] else 0
  {
    DescendsAncestor(info, rank, s, a, d, includeChildren);
    var p := info[d].parent;
    if p != a {
      DescendsVia(info, rank, s, a, p, includeChildren);
      AncestorRankBelow(info, rank, ChildUnder(info, rank, a, p), p);
    }
  }

  /** Nothing below `c` was added to `list` to form `out`. */
  ghost predicate NoneAddedBelow(info: ModuleMap, rank: map<string, nat>, list: seq<ModuleInfo>, out: seq<ModuleInfo>,
                                 c: string)
    requires Ranked(info, rank)
  {
    forall x :: x in Ids(out) && AncestorOrSelf(info, rank, c, x) ==> x in Ids(list)
  }

  lemma {:induction false} DescendsMono(info: ModuleMap, rank: map<string, nat>, list: seq<ModuleInfo>, out: seq<ModuleInfo>,
                                        c: string, d: string, includeChildren: bool)
    requires Ranked(info, rank) && Descends(info, rank, list, c, d, includeChildren)
    requires NoneAddedBelow(info, rank, list, out, c)
    ensures Descends(info, rank, out, c, d, includeChildren)
    decreases if d in rank then rank[d] else 0
  {
    if d != c {
      DescendsAncestor(info, rank, list, c, d, includeChildren);
      DescendsMono(info, rank, list, out, c, info[d].parent, includeChildren);
    }
  }

  /** The ids of the first `k` submodules. */
  function Processed(subs: seq<ModuleDownload>, k: nat): set<string>
    requires k <= |subs|
  {
    set j | 0 <= j < k :: subs[j].id
  }

  /** Everything the submodule loop has added below `id` lies below one of
      the submodules `P` already handled. */
  ghost predicate AddedUnder(info: ModuleMap, rank: map<string, nat>, list: seq<ModuleInfo>, out: seq<ModuleInfo>,
                             id: string, P: set<string>)
    requires Ranked(info, rank)
  {
    forall x :: x in AddedIds(out, |list|) && AncestorOrSelf(info, rank, id, x) && x != id ==>
      ChildUnder(info, rank, id, x) in P
  }

  /** Every unselected module reached from `id` through one of the handled
      submodules `P` is listed. */
  ghost predicate ReachedThrough(info: ModuleMap, rank: map<string, nat>, list: seq<ModuleInfo>, out: seq<ModuleInfo>,
                                 id: string, P: set<string>, includeChildren: bool)
    requires Ranked(info, rank)
  {
    forall d ::
      (&& d in info && AncestorOrSelf(info, rank, id, d) && d != id
       && Descends(info, rank, list, id, d, includeChildren) && !info[d].selected
       && ChildUnder(info, rank, id, d) in P)
      ==> d in Ids(out)
  }

  /** The submodule `c` resolved in the loop adds only what lies below it. */
  lemma AddedUnderStep(info: ModuleMap, rank: map<string, nat>, list: seq<ModuleInfo>, out: seq<ModuleInfo>,
                       next: seq<ModuleInfo>, id: string, c: string, P: set<string>)
    requires Ranked(info, rank) && id in info && c in info && info[c].parent == id
    requires |list| <= |out| <= |next| && next[..|out|] == out
    requires AddedUnder(info, rank, list, out, id, P)
    requires Descendants(info, rank, next, |out|, c)
    ensures AddedUnder(info, rank, list, next, id, P + {c})
  {
    AddedIdsConcat(out, next, |list|);
    forall x | x in AddedIds(next, |out|)
      ensures AncestorOrSelf(info, rank, id, x) && x != id && ChildUnder(info, rank, id, x) == c
    {
      ChildUnderOf(info, rank, id, c, x);
    }
  }

  /** Nothing below a submodule not yet handled has been added. */
  lemma NoneAddedBelowUnhandled(info: ModuleMap, rank: map<string, nat>, list: seq<ModuleInfo>, out: seq<ModuleInfo>,
                                id: string, c: string, P: set<string>)
    requires Ranked(info, rank) && id in info && c in info && info[c].parent == id && c !in P
    requires |list| <= |out| && out[..|list|] == list
    requires AddedUnder(info, rank, list, out, id, P)
    ensures NoneAddedBelow(info, rank, list, out, c)
  {
    forall x | x in Ids(out) && AncestorOrSelf(info, rank, c, x)
      ensures x in Ids(list)
    {
      AddedIdsCover(out, |list|, x);
      ChildUnderOf(info, rank, id, c, x);
    }
  }

  /** The submodule `c` resolved in the loop lists what is reached through
      it. */
  lemma ReachedStep(info: ModuleMap, rank: map<string, nat>, list: seq<ModuleInfo>, out: seq<ModuleInfo>,
                    next: seq<ModuleInfo>, id: string, c: string, P: set<string>, includeChildren: bool)
    requires Ranked(info, rank) && id in info && c in info && info[c].parent == id
    requires |list| <= |out| && out[..|list|] == list && |out| <= |next| && next[..|out|] == out
    requires AddedUnder(info, rank, list, out, id, P)
    requires ReachedThrough(info, rank, list, out, id, P, includeChildren)
    requires Qualifies(info, id, c, includeChildren) && c !in Ids(out) ==> Reach(info, rank, out, c, next, includeChildren)
    ensures ReachedThrough(info, rank, list, next, id, P + {c}, includeChildren)
  {
    IdsPrefix(out, next);
    forall d | && d in info && AncestorOrSelf(info, rank, id, d) && d != id
               && Descends(info, rank, list, id, d, includeChildren) && !info[d].selected
               && ChildUnder(info, rank, id, d) in P + {c}
      ensures d in Ids(next)
    {
      if ChildUnder(info, rank, id, d) !in P {
        DescendsVia(info, rank, list, id, d, includeChildren);
        NoneAddedBelowUnhandled(info, rank, list, out, id, c, P);
        DescendsMono(info, rank, list, out, c, d, includeChildren);
      }
    }
  }

  /** One pass of the submodule loop keeps its lower-bound facts. */
  lemma LowerLoopStep(info: ModuleMap, rank: map<string, nat>, list: seq<ModuleInfo>, out: seq<ModuleInfo>,
                      next: seq<ModuleInfo>, id: string, subs: seq<ModuleDownload>, k: nat, includeChildren: bool)
    requires Ranked(info, rank) && id in info && info[id].subModules == Some(subs) && k < |subs|
    requires |list| <= |out| && out[..|list|] == list && |out| <= |next| && next[..|out|] == out
    requires AddedUnder(info, rank, list, out, id, Processed(subs, k))
    requires ReachedThrough(info, rank, list, out, id, Processed(subs, k), includeChildren)
    requires Descendants(info, rank, next, |out|, subs[k].id)
    requires Qualifies(info, id, subs[k].id, includeChildren) && subs[k].id !in Ids(out) ==>
               Reach(info, rank, out, subs[k].id, next, includeChildren)
    ensures AddedUnder(info, rank, list, next, id, Processed(subs, k + 1))
    ensures ReachedThrough(info, rank, list, next, id, Processed(subs, k + 1), includeChildren)
  {
    var c := subs[k].id;
    assert subs[k] in info[id].subModules.value;
    AddedUnderStep(info, rank, list, out, next, id, c, Processed(subs, k));
    ReachedStep(info, rank, list, out, next, id, c, Processed(subs, k), includeChildren);
    assert Processed(subs, k + 1) == Processed(subs, k) + {c};
  }

  /** The lower bound once every submodule of `id` is handled. */
  lemma ReachAll(info: ModuleMap, rank: map<string, nat>, list: seq<ModuleInfo>, out: seq<ModuleInfo>, id: string,
                 subs: seq<ModuleDownload>, includeChildren: bool)
    requires Ranked(info, rank) && id in info && info[id].subModules == Some(subs)
    requires id in Ids(out) || info[id].selected
    requires ReachedThrough(info, rank, list, out, id, Processed(subs, |subs|), includeChildren)
    ensures Reach(info, rank, list, id, out, includeChildren)
  {
    forall d | d in info && Descends(info, rank, list, id, d, includeChildren) && !info[d].selected
      ensures d in Ids(out)
    {
      if d != id {
        DescendsVia(info, rank, list, id, d, includeChildren);
        var c := ChildUnder(info, rank, id, d);
        var sd :| sd in subs && sd.id == c;
        var j :| 0 <= j < |subs| && subs[j] == sd;
        assert c in Processed(subs, |subs|);
      }
    }
  }

  /** A module without submodules reaches only itself. */
  lemma ReachNone(info: ModuleMap, rank: map<string, nat>, list: seq<ModuleInfo>, out: seq<ModuleInfo>, id: string,
                  includeChildren: bool)
    requires Ranked(info, rank) && id in info && info[id].subModules.None?
    requires id in Ids(out) || info[id].selected
    ensures Reach(info, rank, list, id, out, includeChildren)
  {
    forall d | d in info && Descends(info, rank, list, id, d, includeChildren) && !info[d].selected
      ensures d in Ids(out)
    {
      if d != id {
        DescendsVia(info, rank, list, id, d, includeChildren);
      }
    }
  }

  /** `push_module_to_install`: adds `id` to the list, after resolving its
      unselected parent (without children) and followed by its qualifying
      submodules; the list is only appended to. */
  method PushModuleToInstall(id: string, info: ModuleMap, list: seq<ModuleInfo>, includeChildren: bool,
                             ghost rank: map<string, nat>)
    returns (out: seq<ModuleInfo>)
    requires Ranked(info, rank)
    ensures id !in info ==> out == list
    ensures id in Ids(list) ==> out == list
    ensures Extends(info, rank, list, out, id, includeChildren)
    ensures id in info && !info[id].selected ==> id in Ids(out)
    ensures id in info && id !in Ids(list) ==>
              forall c :: c in SubIds(info[id]) ==> Visited(info, id, c, includeChildren, out)
    ensures id in info && id !in Ids(list) && !Hazard(info, rank, list, id) ==>
              Reach(info, rank, list, id, out, includeChildren)
    decreases |info.Keys - Ids(list)|, Phase(info, id), Height(info, rank, id), 2
  {
    if id !in info {
      return list;
    }
    if id in Ids(list) {
      return list;
    }
    var moduleInfo := info[id];
    var parentModule := moduleInfo.parent;
    out := list;
    if parentModule != "" && !info[parentModule].selected {
      out := ResolveParent(id, info, list, includeChildren, rank);
    }
    assert ParentStepFacts(info, rank, list, out, id, includeChildren);
    if !moduleInfo.selected {
      AppendStep(info, rank, list, out, id, includeChildren);
      out := out + [moduleInfo];
    } else {
      SkipStep(info, rank, list, out, id, includeChildren);
    }
    if moduleInfo.subModules.Some? {
      ghost var start := out;
      out := PushSubmodules(id, info, list, out, includeChildren, rank);
      IdsPrefix(start, out);
    } else {
      ReachNone(info, rank, list, out, id, includeChildren);
    }
  }

  /** The recursion of `push_module_to_install` on the unselected parent of
      `id`, without children (mod.rs:68-70). */
  method ResolveParent(id: string, info: ModuleMap, list: seq<ModuleInfo>, ghost includeChildren: bool,
                       ghost rank: map<string, nat>)
    returns (out: seq<ModuleInfo>)
    requires Ranked(info, rank) && id in info && id !in Ids(list)
    requires info[id].parent != "" && !info[info[id].parent].selected
    ensures ParentStepFacts(info, rank, list, out, id, includeChildren)
    decreases |info.Keys - Ids(list)|, Phase(info, id), Height(info, rank, id), 0
  {
    var parentModule := info[id].parent;
    out := PushModuleToInstall(parentModule, info, list, false, rank);
    if DuplicateCase(info, list, id) {
      assert id in SubIds(info[parentModule]);
      assert Visited(info, parentModule, id, false, out);
    }
    ParentNotReadded(info, rank, list, out, id);
    UnderAncestorWiden(info, rank, out, |list|, id);
  }

  /** A submodule the loop over `id`'s submodules has handled: if it
      qualifies and is not selected, it is listed. */
  predicate Visited(info: ModuleMap, id: string, c: string, includeChildren: bool, out: seq<ModuleInfo>)
  {
    c in info && Qualifies(info, id, c, includeChildren) && !info[c].selected ==> c in Ids(out)
  }

  lemma PrefixTrans<T>(a: seq<T>, b: seq<T>, c: seq<T>)
    requires |a| <= |b| && b[..|a|] == a && |b| <= |c| && c[..|b|] == b
    ensures c[..|a|] == a
  {
    assert c[..|a|] == c[..|b|][..|a|];
  }

  /** One pass of the submodule loop: `submodule` is resolved, with the
      same `include_children`, when it qualifies (mod.rs:77-80). */
  method PushChild(id: string, info: ModuleMap, ghost list: seq<ModuleInfo>, ghost start: seq<ModuleInfo>,
                   out: seq<ModuleInfo>, submodule: ModuleDownload, includeChildren: bool, ghost rank: map<string, nat>)
    returns (next: seq<ModuleInfo>)
    requires Ranked(info, rank) && id in info && id !in Ids(list) && info[id].subModules.Some?
    requires submodule in info[id].subModules.value
    requires id in Ids(out) || info[id].selected
    requires |start| <= |out| && out[..|start|] == start
    requires Extends(info, rank, list, out, id, includeChildren)
    ensures |start| <= |next| && next[..|start|] == start
    ensures |out| <= |next| && next[..|out|] == out
    ensures Extends(info, rank, list, next, id, includeChildren)
    ensures Ids(out) <= Ids(next)
    ensures Descendants(info, rank, next, |out|, submodule.id)
    ensures Qualifies(info, id, submodule.id, includeChildren) && !info[submodule.id].selected ==>
              submodule.id in Ids(next)
    ensures Qualifies(info, id, submodule.id, includeChildren) && submodule.id !in Ids(out) ==>
              Reach(info, rank, out, submodule.id, next, includeChildren)
    decreases |info.Keys - Ids(list)|, Phase(info, id), Height(info, rank, id), 0
  {
    next := out;
    var submoduleInfo := info[submodule.id];
    if includeChildren || submoduleInfo.sync == info[id].id {
      IdsPrefix(list, out);
      UnlistedShrinks(info.Keys, Ids(list), Ids(out), id);
      next := PushModuleToInstall(submodule.id, info, out, includeChildren, rank);
      assert ParentDone(info, rank, out, submodule.id);
      IdsPrefix(out, next);
      ChildStep(info, rank, list, out, next, id, submodule.id, includeChildren);
      PrefixTrans(start, out, next);
    }
  }

  /** A pass of the submodule loop visits one more submodule and keeps the
      ones visited before, since the list only grows. */
  lemma VisitedStep(info: ModuleMap, id: string, subs: seq<ModuleDownload>, k: nat, includeChildren: bool,
                    out: seq<ModuleInfo>, next: seq<ModuleInfo>)
    requires k < |subs| && subs[k].id in info
    requires forall c :: c in Processed(subs, k) ==> Visited(info, id, c, includeChildren, out)
    requires Ids(out) <= Ids(next)
    requires Qualifies(info, id, subs[k].id, includeChildren) && !info[subs[k].id].selected ==> subs[k].id in Ids(next)
    ensures forall c :: c in Processed(subs, k + 1) ==> Visited(info, id, c, includeChildren, next)
  {
    assert Processed(subs, k + 1) == Processed(subs, k) + {subs[k].id};
  }

  /** Once every submodule is processed, each was visited. */
  lemma VisitedAll(info: ModuleMap, id: string, out: seq<ModuleInfo>, includeChildren: bool)
    requires id in info && info[id].subModules.Some?
    requires forall c :: c in Processed(info[id].subModules.value, |info[id].subModules.value|) ==>
               Visited(info, id, c, includeChildren, out)
    ensures forall c :: c in SubIds(info[id]) ==> Visited(info, id, c, includeChildren, out)
  {
    var submodules := info[id].subModules.value;
    forall c | c in SubIds(info[id])
      ensures Visited(info, id, c, includeChildren, out)
    {
      var d :| d in submodules && d.id == c;
      var j :| 0 <= j < |submodules| && submodules[j] == d;
      assert c in Processed(submodules, |submodules|);
    }
  }

  /** The submodule loop of `push_module_to_install` (mod.rs:75-82), run
      after `id` itself has been handled; `list` is the list the call for
      `id` started from. Every qualifying unselected submodule ends up
      listed, and, when nothing below `id` was listed before the loop,
      so does every unselected module reached by qualifying submodule
      links. */
  method PushSubmodules(id: string, info: ModuleMap, ghost list: seq<ModuleInfo>, start: seq<ModuleInfo>,
                        includeChildren: bool, ghost rank: map<string, nat>)
    returns (out: seq<ModuleInfo>)
    requires Ranked(info, rank) && id in info && id !in Ids(list) && info[id].subModules.Some?
    requires id in Ids(start) || info[id].selected
    requires Extends(info, rank, list, start, id, includeChildren)
    ensures |start| <= |out| && out[..|start|] == start
    ensures Extends(info, rank, list, out, id, includeChildren)
    ensures forall c :: c in SubIds(info[id]) ==> Visited(info, id, c, includeChildren, out)
    ensures Clean(info, rank, list, start, id) ==> Reach(info, rank, list, id, out, includeChildren)
    decreases |info.Keys - Ids(list)|, Phase(info, id), Height(info, rank, id), 1
  {
    out := start;
    var submodules := info[id].subModules.value;
    ghost var clean := Clean(info, rank, list, start, id);
    var k := 0;
    while k < |submodules|
      invariant k <= |submodules|
      invariant |start| <= |out| && out[..|start|] == start
      invariant id in Ids(out) || info[id].selected
      invariant Extends(info, rank, list, out, id, includeChildren)
      invariant forall c :: c in Processed(submodules, k) ==> Visited(info, id, c, includeChildren, out)
      invariant clean ==> AddedUnder(info, rank, list, out, id, Processed(submodules, k))
      invariant clean ==> ReachedThrough(info, rank, list, out, id, Processed(submodules, k), includeChildren)
    {
      ghost var before := out;
      out := PushChild(id, info, list, start, out, submodules[k], includeChildren, rank);
      VisitedStep(info, id, submodules, k, includeChildren, before, out);
      if clean {
        LowerLoopStep(info, rank, list, before, out, id, submodules, k, includeChildren);
      }
      k := k + 1;
    }
    VisitedAll(info, id, out, includeChildren);
    if clean {
      ReachAll(info, rank, list, out, id, submodules, includeChildren);
    }
  }

}
