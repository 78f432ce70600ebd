/** What `get_full_id` (src/task_list.rs) computes, stated over the sequence of
    task ids in list order: which full id a user-supplied prefix stands for,
    or why it stands for none. */
module PrefixLookup {
  import opened Util
  import opened Text
  import opened Errors

  /** How many of `ids` start with `p`. */
  function Matches(ids: seq<string>, p: string): (r: nat)
    ensures r <= |ids|
    ensures r == 0 <==> forall j :: 0 <= j < |ids| ==> !StartsWith(ids[j], p)
  {
    if ids == [] then 0
    else
      var init := ids[..|ids| - 1];
      assert forall j :: 0 <= j < |init| ==> init[j] == ids[j];
      Matches(init, p) + (if StartsWith(ids[|ids| - 1], p) then 1 else 0)
  }

  /** Index of the first id equal to `p`, or `|ids|`. */
  function FirstExact(ids: seq<string>, p: string): (r: nat)
    ensures r <= |ids|
    ensures forall j :: 0 <= j < r ==> ids[j] != p
    ensures r < |ids| ==> ids[r] == p
  {
    if ids == [] || ids[0] == p then 0 else 1 + FirstExact(ids[1..], p)
  }

  /** Index of the first id starting with `p`, or `|ids|`. */
  function FirstMatch(ids: seq<string>, p: string): (r: nat)
    ensures r <= |ids|
    ensures forall j :: 0 <= j < r ==> !StartsWith(ids[j], p)
    ensures r < |ids| ==> StartsWith(ids[r], p)
  {
    if ids == [] || StartsWith(ids[0], p) then 0 else 1 + FirstMatch(ids[1..], p)
  }

  /** The full id the prefix `p` resolves to. The ids are scanned in order;
      an id equal to `p` ends the scan with success unless two ids starting
      with `p` came before it, and two ids starting with `p` met before any
      equal one make the prefix ambiguous. */
  function ResolvePrefix(ids: seq<string>, p: string): (r: Result<string>)
    ensures r.Err? ==> r.error == AmbiguousPrefix || r.error == BadPrefix
  {
    var e := FirstExact(ids, p);
    var m := Matches(ids[..e], p);
    if m >= 2 then Err(AmbiguousPrefix)
    else if e < |ids| then Ok(p)
    else if m == 0 then Err(BadPrefix)
    else
      assert ids[..e] == ids;
      Ok(ids[FirstMatch(ids, p)])
  }

  /** Where the scan of `get_full_id` stands after the first `i` ids: none
      of them equals `p`, and `found` is `None` when none starts with `p`, or
      the only one that does. */
  predicate ScannedSoFar(ids: seq<string>, p: string, i: nat, found: Option<string>) {
    && i <= |ids|
    && FirstExact(ids, p) >= i
    && (found.None? ==> Matches(ids[..i], p) == 0)
    && (found.Some? ==> Matches(ids[..i], p) == 1 && FirstMatch(ids, p) < i
                        && found.value == ids[FirstMatch(ids, p)])
  }

  /** The scan starts with nothing found. */
  lemma ScanStart(ids: seq<string>, p: string)
    ensures ScannedSoFar(ids, p, 0, None)
  {
    assert ids[..0] == [];
  }

  /** Passing over an id that differs from `p`, when it is not a second id
      starting with `p`: it is recorded if it starts with `p`. */
  lemma ScanStep(ids: seq<string>, p: string, i: nat, found: Option<string>)
    requires i < |ids| && ScannedSoFar(ids, p, i, found)
    requires ids[i] != p && !(StartsWith(ids[i], p) && found.Some?)
    ensures ScannedSoFar(ids, p, i + 1, if StartsWith(ids[i], p) then Some(ids[i]) else found)
  {
    MatchesStep(ids, p, i);
    if StartsWith(ids[i], p) {
      forall j | 0 <= j < i ensures !StartsWith(ids[j], p) {
        assert ids[..i][j] == ids[j];
      }
    }
  }

  /** Meeting an id equal to `p` resolves to it. */
  lemma ScanExact(ids: seq<string>, p: string, i: nat, found: Option<string>)
    requires i < |ids| && ScannedSoFar(ids, p, i, found) && ids[i] == p
    ensures ResolvePrefix(ids, p) == Ok(p)
  {
  }

  /** Meeting a second id that starts with `p` makes it ambiguous. */
  lemma ScanAmbiguous(ids: seq<string>, p: string, i: nat, found: Option<string>)
    requires i < |ids| && ScannedSoFar(ids, p, i, found)
    requires ids[i] != p && StartsWith(ids[i], p) && found.Some?
    ensures ResolvePrefix(ids, p) == Err(AmbiguousPrefix)
  {
    MatchesStep(ids, p, i);
    MatchesMonotone(ids, p, i + 1, FirstExact(ids, p));
  }

  /** At the end of the scan, what was found is the answer. */
  lemma ScanEnd(ids: seq<string>, p: string, found: Option<string>)
    requires ScannedSoFar(ids, p, |ids|, found)
    ensures ResolvePrefix(ids, p) == (if found.Some? then Ok(found.value) else Err(BadPrefix))
  {
    assert ids[..|ids|] == ids;
  }

  /** Counting one more id adds one exactly when it starts with `p`. */
  lemma MatchesStep(ids: seq<string>, p: string, i: nat)
    requires i < |ids|
    ensures Matches(ids[..i + 1], p) == Matches(ids[..i], p) + (if StartsWith(ids[i], p) then 1 else 0)
  {
    assert ids[..i + 1][..i] == ids[..i];
  }

  /** A longer leading part of the ids never has fewer matches. */
  lemma {:induction false} MatchesMonotone(ids: seq<string>, p: string, a: nat, b: nat)
    requires a <= b <= |ids|
    ensures Matches(ids[..a], p) <= Matches(ids[..b], p)
    decreases b - a
  {
    if a < b {
      MatchesStep(ids, p, b - 1);
      MatchesMonotone(ids, p, a, b - 1);
    }
  }

  /** Two or more matches means two distinct positions that match. */
  lemma {:induction false} MatchesTwo(ids: seq<string>, p: string)
    requires Matches(ids, p) >= 2
    ensures exists i, j :: 0 <= i < j < |ids| && StartsWith(ids[i], p) && StartsWith(ids[j], p)
  {
    var n := |ids| - 1;
    var init := ids[..n];
    assert forall k :: 0 <= k < n ==> init[k] == ids[k];
    if Matches(init, p) >= 2 {
      MatchesTwo(init, p);
      var i, j :| 0 <= i < j < n && StartsWith(init[i], p) && StartsWith(init[j], p);
      assert StartsWith(ids[i], p) && StartsWith(ids[j], p);
    } else {
      assert StartsWith(ids[n], p) && Matches(init, p) == 1;
      var i :| 0 <= i < n && StartsWith(init[i], p);
      assert StartsWith(ids[i], p);
    }
  }

  /** No two matching positions means at most one match. */
  lemma {:induction false} MatchesAtMostOne(ids: seq<string>, p: string)
    requires forall i, j :: 0 <= i < j < |ids| ==> !(StartsWith(ids[i], p) && StartsWith(ids[j], p))
    ensures Matches(ids, p) <= 1
  {
    if ids != [] {
      var n := |ids| - 1;
      var init := ids[..n];
      assert forall k :: 0 <= k < n ==> init[k] == ids[k];
      MatchesAtMostOne(init, p);
      if StartsWith(ids[n], p) {
        assert forall k :: 0 <= k < n ==> !StartsWith(init[k], p);
      }
    }
  }

  /** Soundness: a resolved id is one of the ids and starts with the prefix. */
  lemma ResolveSound(ids: seq<string>, p: string)
    ensures ResolvePrefix(ids, p).Ok? ==>
      ResolvePrefix(ids, p).value in ids && StartsWith(ResolvePrefix(ids, p).value, p)
  {
    var e := FirstExact(ids, p);
    if e == |ids| {
      assert ids[..e] == ids;
    }
  }

  /** `BadPrefix` is reported exactly when no id starts with the prefix. */
  lemma ResolveBadPrefixIff(ids: seq<string>, p: string)
    ensures ResolvePrefix(ids, p) == Err(BadPrefix) <==> forall j :: 0 <= j < |ids| ==> !StartsWith(ids[j], p)
  {
    var e := FirstExact(ids, p);
    if e < |ids| {
      assert StartsWith(ids[e], p);
    } else {
      assert ids[..e] == ids;
    }
  }

  /** When exactly one id starts with the prefix, it is the one resolved. */
  lemma ResolveUnique(ids: seq<string>, p: string, k: nat)
    requires k < |ids| && StartsWith(ids[k], p)
    requires forall j :: 0 <= j < |ids| && j != k ==> !StartsWith(ids[j], p)
    ensures ResolvePrefix(ids, p) == Ok(ids[k])
  {
    var e := FirstExact(ids, p);
    if e < |ids| {
      assert StartsWith(ids[e], p);
      assert e == k;
      assert forall j :: 0 <= j < e ==> ids[..e][j] == ids[j];
    } else {
      assert ids[..e] == ids;
      if Matches(ids, p) >= 2 {
        MatchesTwo(ids, p);
      }
    }
  }

  /** `AmbiguousPrefix` is reported only when two ids, both different from
      the prefix, start with it. */
  lemma ResolveAmbiguous(ids: seq<string>, p: string)
    requires ResolvePrefix(ids, p) == Err(AmbiguousPrefix)
    ensures exists i, j :: 0 <= i < j < |ids| && StartsWith(ids[i], p) && StartsWith(ids[j], p)
                           && ids[i] != p && ids[j] != p
  {
    var e := FirstExact(ids, p);
    var init := ids[..e];
    assert forall k :: 0 <= k < e ==> init[k] == ids[k];
    MatchesTwo(init, p);
    var i, j :| 0 <= i < j < |init| && StartsWith(init[i], p) && StartsWith(init[j], p);
    assert ids[i] == init[i] && ids[j] == init[j];
  }

  /** An exact id wins when it is reached before a second id starting with
      the prefix: at most one earlier id starts with it. */
  lemma ResolveExactWins(ids: seq<string>, p: string, k: nat)
    requires k < |ids| && ids[k] == p
    requires forall i, j :: 0 <= i < j < k ==> !(StartsWith(ids[i], p) && StartsWith(ids[j], p))
    ensures ResolvePrefix(ids, p) == Ok(p)
  {
    var e := FirstExact(ids, p);
    assert e <= k;
    var init := ids[..e];
    assert forall x :: 0 <= x < e ==> init[x] == ids[x];
    MatchesAtMostOne(init, p);
  }

  /** A success through a proper prefix means the resolved id is the only
      id that starts with the prefix, and no id equals the prefix. */
  lemma ResolveOkByPrefixIsUnique(ids: seq<string>, p: string)
    requires ResolvePrefix(ids, p).Ok? && ResolvePrefix(ids, p).value != p
    ensures p !in ids
    ensures forall j :: 0 <= j < |ids| && StartsWith(ids[j], p) ==> ids[j] == ResolvePrefix(ids, p).value
  {
    var e := FirstExact(ids, p);
    assert e == |ids|;
    assert ids[..e] == ids;
    var k := FirstMatch(ids, p);
    forall j | 0 <= j < |ids| && StartsWith(ids[j], p) ensures ids[j] == ids[k] {
      if j != k {
        DuplicateCounts(ids, p, k, j);
      }
    }
  }

  /** An id that occurs in the list resolves to itself, or is ambiguous. */
  lemma ResolveMember(ids: seq<string>, p: string)
    requires p in ids
    ensures ResolvePrefix(ids, p) == Ok(p) || ResolvePrefix(ids, p) == Err(AmbiguousPrefix)
  {
  }

  /** A resolved full id resolves to itself again (the second lookup that
      `remove_task` makes through `get_children_tasks` cannot fail). */
  lemma ResolveStable(ids: seq<string>, p: string)
    requires ResolvePrefix(ids, p).Ok?
    ensures ResolvePrefix(ids, ResolvePrefix(ids, p).value) == ResolvePrefix(ids, p)
  {
    var f := ResolvePrefix(ids, p).value;
    if f != p {
      ResolveSound(ids, p);
      ResolveOkByPrefixIsUnique(ids, p);
      var k :| 0 <= k < |ids| && ids[k] == f;
      forall j | 0 <= j < |ids| && j != k ensures !StartsWith(ids[j], f) {
        if StartsWith(ids[j], f) {
          assert StartsWith(ids[j], p);
          assert ids[j] == f;
          assert ids[j] == ids[k];
          assert ids[..FirstExact(ids, p)] == ids;
          DuplicateCounts(ids, p, j, k);
        }
      }
      ResolveUnique(ids, f, k);
    }
  }

  /** Two positions holding ids that start with `p` give at least two
      matches. */
  lemma DuplicateCounts(ids: seq<string>, p: string, j: nat, k: nat)
    requires j < |ids| && k < |ids| && j != k
    requires StartsWith(ids[j], p) && StartsWith(ids[k], p)
    ensures Matches(ids, p) >= 2
  {
    var lo, hi := if j < k then j else k, if j < k then k else j;
    MatchesStep(ids, p, hi);
    assert Matches(ids[..hi], p) >= 1 by {
      assert ids[..hi][lo] == ids[lo];
    }
    MatchesMonotone(ids, p, hi + 1, |ids|);
    assert ids[..|ids|] == ids;
  }
}
