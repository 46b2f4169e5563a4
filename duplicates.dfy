/** The duplicate-id scan CreateDefinition runs over the state ids and again
    over the action ids: a dictionary of ids seen so far, a flag, and the list
    of repeated ids. */
module DuplicateDetection {
  import opened Models

  /** The ids that occur more than once in `ids`, each listed once, in the
      order in which each is first repeated. */
  function DuplicateIds(ids: seq<string>): seq<string>
  {
    if ids == [] then []
    else
      var prior := ids[..|ids| - 1];
      var found := DuplicateIds(prior);
      var id := ids[|ids| - 1];
      if id in prior && id !in found then found + [id] else found
  }

  /** An id is reported exactly when it occurs at least twice. */
  lemma {:induction false} DuplicateIdsMembers(ids: seq<string>, x: string)
    ensures x in DuplicateIds(ids) <==> multiset(ids)[x] >= 2
  {
    if ids != [] {
      var prior := ids[..|ids| - 1];
      DuplicateIdsMembers(prior, x);
      assert ids == prior + [ids[|ids| - 1]];
      assert x in prior <==> multiset(prior)[x] >= 1;
    }
  }

  /** Each repeated id is reported once only. */
  lemma {:induction false} DuplicateIdsDistinct(ids: seq<string>)
    ensures Distinct(DuplicateIds(ids))
  {
    if ids != [] {
      DuplicateIdsDistinct(ids[..|ids| - 1]);
    }
  }

  /** The report is empty exactly when the ids are pairwise distinct. */
  lemma {:induction false} DuplicateIdsEmptyIff(ids: seq<string>)
    ensures DuplicateIds(ids) == [] <==> Distinct(ids)
  {
    if ids != [] {
      var prior := ids[..|ids| - 1];
      var id := ids[|ids| - 1];
      DuplicateIdsEmptyIff(prior);
      if Distinct(ids) {
        assert Distinct(prior) by {
          forall i, j | 0 <= i < j < |prior| ensures prior[i] != prior[j] {
            assert prior[i] == ids[i] && prior[j] == ids[j];
          }
        }
        assert id !in prior by {
          forall i | 0 <= i < |prior| ensures prior[i] != id {
            assert prior[i] == ids[i];
          }
        }
      } else if Distinct(prior) {
        var i, j :| 0 <= i < j < |ids| && ids[i] == ids[j];
        assert forall k :: 0 <= k < |prior| ==> prior[k] == ids[k];
        assert j == |ids| - 1;
        assert prior[i] == id;
      }
    }
  }

  /** Order of first repetition: the ids repeated within any prefix of `ids`
      are listed, in the same order, at the front of the report. */
  lemma {:induction false} DuplicateIdsPrefix(ids: seq<string>, n: nat)
    requires n <= |ids|
    ensures DuplicateIds(ids[..n]) <= DuplicateIds(ids)
  {
    if n < |ids| {
      var prior := ids[..|ids| - 1];
      assert prior[..n] == ids[..n];
      DuplicateIdsPrefix(prior, n);
      assert DuplicateIds(prior) <= DuplicateIds(ids);
    } else {
      assert ids[..n] == ids;
    }
  }

  /** The foreach loop of CreateDefinition at WorkflowService.cs:45-63
      (states) and :69-87 (actions), over the ids of the list. */
  method FindDuplicates(ids: seq<string>) returns (containsDuplicates: bool, duplicates: seq<string>)
    ensures duplicates == DuplicateIds(ids)
    ensures containsDuplicates <==> duplicates != []
    ensures containsDuplicates <==> !Distinct(ids)
    ensures forall x :: x in duplicates <==> multiset(ids)[x] >= 2
  {
    containsDuplicates := false;
    var idsMap: map<string, nat> := map[];
    duplicates := [];
    for i := 0 to |ids|
      invariant forall x :: x in idsMap <==> x in ids[..i]
      invariant forall x :: x in idsMap ==> idsMap[x] == multiset(ids[..i])[x]
      invariant duplicates == DuplicateIds(ids[..i])
      invariant containsDuplicates <==> duplicates != []
    {
      var id := ids[i];
      assert ids[..i + 1] == ids[..i] + [id];
      if id in idsMap {
        idsMap := idsMap[id := idsMap[id] + 1];
        containsDuplicates := true;
        if id !in duplicates {
          duplicates := duplicates + [id];
        }
      } else {
        idsMap := idsMap[id := 1];
      }
    }
    assert ids[..|ids|] == ids;
    DuplicateIdsEmptyIff(ids);
    forall x ensures x in duplicates <==> multiset(ids)[x] >= 2 {
      DuplicateIdsMembers(ids, x);
    }
  }
}
