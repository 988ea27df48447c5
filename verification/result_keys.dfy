/** The keys under which both calculators store their results, and the
    bookkeeping of the loops that fill them: `LOT_{lot}_{activity}` when the
    tree has LOTs, `ORG_{activity}` otherwise. */
module ResultKeys {
  import opened Wrappers
  import opened Tree

  /** `act` is an activity, EU or AEP, of some ENT node below `id`. */
  ghost predicate ActivityBelow(tree: OrganizationTree, id: string, act: string)
    reads tree
    requires tree.Valid() && tree.Acyclic()
  {
    KnownActivity(Some(act)) && exists n :: n in tree.Descendants(id, None) && n.nodeType == "ENT" && n.activity == Some(act)
  }

  function LotKey(lotId: string, act: string): string {
    "LOT_" + lotId + "_" + act
  }

  function OrgKey(act: string): string {
    "ORG_" + act
  }

  /** A result key names one LOT and one activity. */
  lemma LotKeyInjective(l1: string, a1: string, l2: string, a2: string)
    requires KnownActivity(Some(a1)) && KnownActivity(Some(a2))
    requires LotKey(l1, a1) == LotKey(l2, a2)
    ensures l1 == l2 && a1 == a2
  {
    var k := LotKey(l1, a1);
    assert k[|k| - 3..] == (if a1 == "EU" then "_EU" else "AEP");
    assert k[|k| - 3..] == (if a2 == "EU" then "_EU" else "AEP");
    assert k[4..|k| - |a1| - 1] == l1;
    assert k[4..|k| - |a2| - 1] == l2;
  }

  /** "ORG" is none of the other keys. */
  lemma OrgKeyApart(lotId: string, act: string)
    ensures LotKey(lotId, act) != "ORG" && OrgKey(act) != "ORG"
  {
    assert LotKey(lotId, act)[0] == 'L';
  }

  /** The results after storing `want[a]` under `prefix + a` for each
      activity `a` of `done`, starting from `results0`. */
  ghost predicate ActivitiesDone<R>(prefix: string, done: set<string>, want: map<string, R>,
                                 results0: map<string, R>, results: map<string, R>)
  {
    && (forall k :: k in results0 ==> k in results)
    && (forall a :: a in done && a in want ==> prefix + a in results && results[prefix + a] == want[a])
    && (forall k :: k in results ==>
          (k in results0 && results[k] == results0[k]) || exists a :: a in done && a in want && k == prefix + a)
  }

  /** Nothing is handled yet. */
  lemma NoActivityDone<R>(prefix: string, want: map<string, R>, results0: map<string, R>)
    ensures ActivitiesDone(prefix, {}, want, results0, results0)
  {
  }

  /** Storing the wanted result of one more activity. */
  lemma ActivityDone<R>(prefix: string, done: set<string>, act: string, want: map<string, R>,
                     results0: map<string, R>, results: map<string, R>)
    requires ActivitiesDone(prefix, done, want, results0, results) && act in want
    ensures ActivitiesDone(prefix, done + {act}, want, results0, results[prefix + act := want[act]])
  {
    forall a | a in done && a != act
      ensures prefix + a != prefix + act
    {
      assert (prefix + a)[|prefix|..] == a && (prefix + act)[|prefix|..] == act;
    }
  }

  /** Handling an activity that has no wanted result stores nothing. */
  lemma ActivitySkipped<R>(prefix: string, done: set<string>, act: string, want: map<string, R>,
                           results0: map<string, R>, results: map<string, R>)
    requires ActivitiesDone(prefix, done, want, results0, results) && act !in want
    ensures ActivitiesDone(prefix, done + {act}, want, results0, results)
  {
  }

  /** Moving `x` from `left` to the handled part. */
  lemma SetStep<T>(acts: set<T>, left: set<T>, x: T)
    requires x in left && left <= acts
    ensures acts - (left - {x}) == (acts - left) + {x} && |left - {x}| < |left|
  {
  }

  /** The ORG-activity entries for a tree without LOTs: `want[a]` under
      "ORG_{a}" for each activity `a` of `want`, and no other key but "ORG". */
  ghost predicate OrgDone<R>(want: map<string, R>, results: map<string, R>) {
    && (forall a :: a in want ==> OrgKey(a) in results && results[OrgKey(a)] == want[a])
    && (forall k :: k in results && k != "ORG" ==> exists a :: a in want && k == OrgKey(a))
  }

  /** The activities found below `id`, as `get_lot_activities` gathers them. */
  ghost function LotActs(tree: OrganizationTree, id: string): (r: set<string>)
    reads tree
    requires tree.Valid() && tree.Acyclic()
    ensures forall a :: a in r <==>
      KnownActivity(Some(a)) && exists n :: n in tree.Descendants(id, None) && n.nodeType == "ENT" && n.activity == Some(a)
  {
    set n | n in tree.Descendants(id, None) && n.nodeType == "ENT" && KnownActivity(n.activity) :: n.activity.value
  }

  /** An activity gathered below a LOT is found below it. */
  lemma LotActsBelow(tree: OrganizationTree, id: string, act: string)
    requires tree.Valid() && tree.Acyclic() && act in LotActs(tree, id)
    ensures ActivityBelow(tree, id, act)
  {
  }

  /** The entries for the first `n` LOTs, with `wants[j]` the result of each
      activity of the LOT `ids[j]`; no other key but "ORG". */
  ghost predicate LotsDone<R>(ids: seq<string>, wants: seq<map<string, R>>, n: nat,
                           results: map<string, R>)
    requires n <= |ids| && n <= |wants|
  {
    && (forall j, a :: 0 <= j < n && a in wants[j] ==>
          LotKey(ids[j], a) in results && results[LotKey(ids[j], a)] == wants[j][a])
    && (forall k :: k in results && k != "ORG" ==>
          exists j, a :: 0 <= j < n && a in wants[j] && k == LotKey(ids[j], a))
  }

  /** Reading one entry of the tree-free LOT entries. */
  lemma LotsDoneAt<R>(ids: seq<string>, wants: seq<map<string, R>>, results: map<string, R>,
                   j: nat, act: string)
    requires |ids| == |wants| && LotsDone(ids, wants, |ids|, results)
    requires j < |ids| && act in wants[j]
    ensures LotKey(ids[j], act) in results && results[LotKey(ids[j], act)] == wants[j][act]
  {
  }

  /** Reading one key of the tree-free LOT entries. */
  lemma LotsDoneKey<R>(ids: seq<string>, wants: seq<map<string, R>>, results: map<string, R>, k: string)
    requires |ids| == |wants| && LotsDone(ids, wants, |ids|, results)
    requires k in results && k != "ORG"
    ensures exists j, a :: 0 <= j < |ids| && a in wants[j] && k == LotKey(ids[j], a) && results[k] == wants[j][a]
  {
    var j, a :| 0 <= j < |ids| && a in wants[j] && k == LotKey(ids[j], a);
    assert results[LotKey(ids[j], a)] == wants[j][a];
  }

  /** The wanted results only name activities EU and AEP, and a LOT listed
      twice wants the same results. */
  ghost predicate WantsAgree<R>(ids: seq<string>, wants: seq<map<string, R>>)
    requires |ids| == |wants|
  {
    && (forall j, a :: 0 <= j < |wants| && a in wants[j] ==> KnownActivity(Some(a)))
    && (forall i, j :: 0 <= i < |ids| && 0 <= j < |ids| && ids[i] == ids[j] ==> wants[i] == wants[j])
  }

  /** One more LOT: its activity loop keeps the earlier entries, because a
      LOT key names one LOT and one activity, and a LOT met twice gets the
      same results twice. */
  lemma LotStep<R>(ids: seq<string>, wants: seq<map<string, R>>, i: nat, acts: set<string>,
                results0: map<string, R>, results: map<string, R>)
    requires i < |ids| == |wants| && WantsAgree(ids, wants)
    requires wants[i].Keys <= acts && ActivitiesDone("LOT_" + ids[i] + "_", acts, wants[i], results0, results)
    requires LotsDone(ids, wants, i, results0)
    ensures LotsDone(ids, wants, i + 1, results)
  {
    var prefix := "LOT_" + ids[i] + "_";
    forall j, a | 0 <= j < i + 1 && a in wants[j]
      ensures LotKey(ids[j], a) in results && results[LotKey(ids[j], a)] == wants[j][a]
    {
      if j < i {
        var k := LotKey(ids[j], a);
        if k !in results0 || results[k] != results0[k] {
          var b :| b in acts && b in wants[i] && k == prefix + b;
          LotKeyInjective(ids[j], a, ids[i], b);
        }
      }
    }
    forall k | k in results && k != "ORG"
      ensures exists j, a :: 0 <= j < i + 1 && a in wants[j] && k == LotKey(ids[j], a)
    {
      if k !in results0 || results[k] != results0[k] {
        var b :| b in acts && b in wants[i] && k == prefix + b;
        assert k == LotKey(ids[i], b);
      }
    }
  }

  /** An activity loop under a prefix of at least four characters keeps
      the "ORG" entry. */
  lemma ActivitiesKeepOrg<R>(prefix: string, acts: set<string>, want: map<string, R>,
                          results0: map<string, R>, results: map<string, R>)
    requires ActivitiesDone(prefix, acts, want, results0, results)
    requires |prefix| >= 4 && "ORG" in results0
    ensures "ORG" in results && results["ORG"] == results0["ORG"]
  {
    forall a ensures prefix + a != "ORG" {
      assert |prefix + a| >= 4;
    }
  }

  /** An activity loop under a prefix of at least four characters adds no
      "ORG" entry. */
  lemma ActivitiesAddNoOrg<R>(prefix: string, acts: set<string>, want: map<string, R>,
                           results0: map<string, R>, results: map<string, R>)
    requires ActivitiesDone(prefix, acts, want, results0, results)
    requires |prefix| >= 4 && "ORG" !in results0
    ensures "ORG" !in results
  {
    forall a ensures prefix + a != "ORG" {
      assert |prefix + a| >= 4;
    }
  }

  /** The activity loop over the organisation's activities, started from
      nothing but an "ORG" entry, leaves the ORG-activity entries. */
  lemma OrgStep<R>(acts: set<string>, want: map<string, R>, results0: map<string, R>, results: map<string, R>)
    requires want.Keys <= acts && ActivitiesDone("ORG_", acts, want, results0, results)
    requires forall k :: k in results0 ==> k == "ORG"
    ensures OrgDone(want, results)
  {
    forall k | k in results && k != "ORG"
      ensures exists a :: a in want && k == OrgKey(a)
    {
      var a :| a in acts && a in want && k == "ORG_" + a;
      assert k == OrgKey(a);
    }
  }

  /** `get_lot_activities` yields `LotActs`. */
  lemma LotActsAre(tree: OrganizationTree, id: string, acts: set<string>)
    requires tree.Valid() && tree.Acyclic()
    requires forall a :: a in acts <==>
      KnownActivity(Some(a)) && exists n :: n in tree.Descendants(id, None) && n.nodeType == "ENT" && n.activity == Some(a)
    ensures acts == LotActs(tree, id)
  {
  }
}
