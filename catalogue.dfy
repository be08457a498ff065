/**
 * Format catalogues: the `format_map` dictionary literals of both scripts are
 * lists of (format number, display name) entries, read as Python reads a dict
 * display, so that a later entry for the same number would win.
 */
module Catalogue {
  import opened Platform

  datatype Entry = Entry(id: FormatId, name: string)

  predicate DistinctIds(c: seq<Entry>) {
    forall i, j | 0 <= i < j < |c| :: c[i].id != c[j].id
  }

  predicate DistinctNames(c: seq<Entry>) {
    forall i, j | 0 <= i < j < |c| :: c[i].name != c[j].name
  }

  /** No entry in `c[lo..hi]` shares its number with a later entry. */
  predicate IdsDistinctFrom(c: seq<Entry>, lo: nat, hi: nat) {
    forall i, j | lo <= i < hi && i < j < |c| :: c[i].id != c[j].id
  }

  /** No entry in `c[lo..hi]` shares its name with a later entry. */
  predicate NamesDistinctFrom(c: seq<Entry>, lo: nat, hi: nat) {
    forall i, j | lo <= i < hi && i < j < |c| :: c[i].name != c[j].name
  }

  /** Distinct numbers in a long catalogue, checked a stretch at a time. */
  lemma DistinctIdsInParts(c: seq<Entry>, a: nat, b: nat)
    requires a <= b <= |c|
    requires IdsDistinctFrom(c, 0, a) && IdsDistinctFrom(c, a, b) && IdsDistinctFrom(c, b, |c|)
    ensures DistinctIds(c)
  {
  }

  /** Distinct names in a long catalogue, checked a stretch at a time. */
  lemma DistinctNamesInParts(c: seq<Entry>, a: nat, b: nat)
    requires a <= b <= |c|
    requires NamesDistinctFrom(c, 0, a) && NamesDistinctFrom(c, a, b) && NamesDistinctFrom(c, b, |c|)
    ensures DistinctNames(c)
  {
  }

  /** The position of the entry a dict display keeps for `id` (the last one), or -1. */
  function Find(c: seq<Entry>, id: FormatId): (r: int)
    ensures -1 <= r < |c|
    ensures r >= 0 ==> c[r].id == id
  {
    if c == [] then -1
    else if c[|c| - 1].id == id then |c| - 1
    else Find(c[..|c| - 1], id)
  }

  /** The entry found is the last one carrying `id`, and none is found exactly when no entry carries it. */
  lemma {:induction false} FindIsLast(c: seq<Entry>, id: FormatId)
    ensures Find(c, id) >= 0 ==> forall j | Find(c, id) < j < |c| :: c[j].id != id
    ensures Find(c, id) < 0 <==> forall j | 0 <= j < |c| :: c[j].id != id
  {
    if c != [] && c[|c| - 1].id != id {
      FindIsLast(c[..|c| - 1], id);
    }
  }

  /** With no number listed twice, the entry found for a listed number is that entry. */
  lemma FindListed(c: seq<Entry>, i: nat)
    requires DistinctIds(c) && i < |c|
    ensures Find(c, c[i].id) == i
  {
    FindIsLast(c, c[i].id);
  }
}
