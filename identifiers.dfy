/**
 * Both tables are keyed by the provider's text identifier (column `outage_identifer`).
 * The code never relies on a database constraint for uniqueness: it counts the rows
 * that carry an identifier and inserts only when the count is zero.
 */
module Identifiers {

  /** `SELECT COUNT(*) ... WHERE outage_identifer = id` over the identifier column `ids`. */
  function Count(ids: seq<string>, id: string): (n: nat)
    ensures n <= |ids|
  {
    if ids == [] then 0
    else Count(ids[..|ids| - 1], id) + (if ids[|ids| - 1] == id then 1 else 0)
  }

  /** No identifier occurs twice in the column. */
  predicate Unique(ids: seq<string>) {
    forall i, j :: 0 <= i < j < |ids| ==> ids[i] != ids[j]
  }

  /** A zero count is exactly absence of the identifier. */
  lemma {:induction false} CountZeroIff(ids: seq<string>, id: string)
    ensures Count(ids, id) == 0 <==> id !in ids
  {
    if ids != [] {
      var front := ids[..|ids| - 1];
      CountZeroIff(front, id);
      assert ids == front + [ids[|ids| - 1]];
    }
  }

  /** In a column without duplicates every identifier is counted at most once. */
  lemma {:induction false} CountOfUnique(ids: seq<string>, id: string)
    requires Unique(ids)
    ensures Count(ids, id) == (if id in ids then 1 else 0)
  {
    if ids != [] {
      var front := ids[..|ids| - 1];
      assert Unique(front);
      CountOfUnique(front, id);
      assert ids == front + [ids[|ids| - 1]];
      if ids[|ids| - 1] == id {
        assert id !in front;
      }
    }
  }

  /** Appending an identifier whose count is zero keeps the column free of duplicates. */
  lemma AppendFresh(ids: seq<string>, id: string)
    requires Unique(ids) && Count(ids, id) == 0
    ensures Unique(ids + [id])
  {
    CountZeroIff(ids, id);
  }

  /** Tables only grow at the end; being a leading part of a table is transitive. */
  lemma PrefixTransitive<T>(a: seq<T>, b: seq<T>, c: seq<T>)
    requires a <= b && b <= c
    ensures a <= c
  {
    assert c[..|a|] == b[..|a|];
  }
}
