/** What `compute_prefixes` (src/task_list.rs) computes: for each task, the
    shortest leading part of its id that no other task's id starts with, the
    map from full id to that display prefix, and the widest length recorded. */
module PrefixCompression {
  import opened Text
  import opened Tasks

  /** Some task other than the one at `pos` has an id starting with `p`. */
  predicate OtherStartsWith(ts: seq<Task>, pos: nat, p: string)
    requires pos < |ts|
  {
    exists j :: 0 <= j < |ts| && j != pos && StartsWith(ts[j].id, p)
  }

  /** The search of the inner loop from length `len` on: the least length
      `k` in `len..|id|` whose leading part of the id is not the start of
      another task's id, or `|id| + 1` when every length up to the whole id
      clashes (then `len` has counted one past the end). */
  function UniqueLen(ts: seq<Task>, pos: nat, len: nat): (r: nat)
    requires pos < |ts| && 1 <= len <= |ts[pos].id| + 1
    ensures len <= r <= |ts[pos].id| + 1
    ensures forall k :: len <= k < r ==> OtherStartsWith(ts, pos, ts[pos].id[..k])
    ensures r <= |ts[pos].id| ==> !OtherStartsWith(ts, pos, ts[pos].id[..r])
    decreases |ts[pos].id| + 1 - len
  {
    if len > |ts[pos].id| || !OtherStartsWith(ts, pos, ts[pos].id[..len]) then len
    else UniqueLen(ts, pos, len + 1)
  }

  /** The length searched from 1, as the loop does. */
  function ShortLen(ts: seq<Task>, pos: nat): nat
    requires pos < |ts|
  {
    UniqueLen(ts, pos, 1)
  }

  /** The prefix recorded for the task at `pos`: the whole id when it was
      given explicitly, otherwise the leading part of length `ShortLen`
      (the whole id when that search ran past the end). */
  function DisplayPrefix(ts: seq<Task>, pos: nat): string
    requires pos < |ts|
  {
    var id := ts[pos].id;
    if ts[pos].showFullId then id
    else
      var n := ShortLen(ts, pos);
      if n <= |id| then id[..n] else id
  }

  /** The `len` the loop compares with `prefix_max_len` for the task at `pos`. */
  function RecordedLen(ts: seq<Task>, pos: nat): nat
    requires pos < |ts|
  {
    if ts[pos].showFullId then |ts[pos].id| else ShortLen(ts, pos)
  }

  /** The map after inserting the first `n` tasks in list order: a later task
      with the same id overwrites an earlier one's entry. */
  function PrefixMap(ts: seq<Task>, n: nat): map<string, string>
    requires n <= |ts|
  {
    if n == 0 then map[]
    else PrefixMap(ts, n - 1)[ts[n - 1].id := DisplayPrefix(ts, n - 1)]
  }

  /** `prefix_max_len` after the first `n` tasks: starts at 1 and grows to
      every recorded length. */
  function MaxLen(ts: seq<Task>, n: nat): nat
    requires n <= |ts|
  {
    if n == 0 then 1
    else
      var m := MaxLen(ts, n - 1);
      if RecordedLen(ts, n - 1) > m then RecordedLen(ts, n - 1) else m
  }

  /** The map has an entry for every task's id and no other key. */
  lemma {:induction false} PrefixMapKeys(ts: seq<Task>, n: nat)
    requires n <= |ts|
    ensures forall i :: 0 <= i < n ==> ts[i].id in PrefixMap(ts, n)
    ensures forall k :: k in PrefixMap(ts, n) ==> exists i :: 0 <= i < n && ts[i].id == k
  {
    if n > 0 {
      PrefixMapKeys(ts, n - 1);
    }
  }

  /** The width is at least 1, at least every recorded length, and one of
      them unless it is still the initial 1. */
  lemma {:induction false} MaxLenBounds(ts: seq<Task>, n: nat)
    requires n <= |ts|
    ensures MaxLen(ts, n) >= 1
    ensures forall i :: 0 <= i < n ==> RecordedLen(ts, i) <= MaxLen(ts, n)
    ensures MaxLen(ts, n) == 1 || exists i :: 0 <= i < n && MaxLen(ts, n) == RecordedLen(ts, i)
  {
    if n > 0 {
      MaxLenBounds(ts, n - 1);
    }
  }

  /** Each map entry belongs to the last task carrying that id. */
  lemma {:induction false} PrefixMapLast(ts: seq<Task>, n: nat, i: nat)
    requires i < n <= |ts|
    requires forall j :: i < j < n ==> ts[j].id != ts[i].id
    ensures ts[i].id in PrefixMap(ts, n)
    ensures PrefixMap(ts, n)[ts[i].id] == DisplayPrefix(ts, i)
  {
    if i < n - 1 {
      PrefixMapLast(ts, n - 1, i);
    }
  }

  /** With distinct ids, every task's entry is its own display prefix. */
  lemma PrefixMapUnique(ts: seq<Task>)
    requires forall i, j :: 0 <= i < j < |ts| ==> ts[i].id != ts[j].id
    ensures forall i :: 0 <= i < |ts| ==> ts[i].id in PrefixMap(ts, |ts|)
    ensures forall i :: 0 <= i < |ts| ==> PrefixMap(ts, |ts|)[ts[i].id] == DisplayPrefix(ts, i)
  {
    PrefixMapKeys(ts, |ts|);
    forall i | 0 <= i < |ts| ensures PrefixMap(ts, |ts|)[ts[i].id] == DisplayPrefix(ts, i) {
      PrefixMapLast(ts, |ts|, i);
    }
  }

  /** What a display prefix is. An explicit id is shown in full. Otherwise
      the prefix leads the id, is not empty unless the id is, is either the
      start of no other id or the full id, and every shorter non-empty
      leading part of the id starts some other id. */
  lemma DisplayPrefixFacts(ts: seq<Task>, pos: nat)
    requires pos < |ts|
    ensures ts[pos].showFullId ==> DisplayPrefix(ts, pos) == ts[pos].id
    ensures !ts[pos].showFullId ==>
      var d := DisplayPrefix(ts, pos);
      && StartsWith(ts[pos].id, d)
      && (d == [] ==> ts[pos].id == [])
      && (!OtherStartsWith(ts, pos, d) || d == ts[pos].id)
      && forall k :: 1 <= k < |d| ==> OtherStartsWith(ts, pos, ts[pos].id[..k])
  {
    var id := ts[pos].id;
    var n := ShortLen(ts, pos);
    if n > |id| {
      assert id[..|id|] == id;
    }
  }

  /** Of two tasks with derived ids that agree on their first `k`
      characters and differ at index `k`, the one at `pos` searches to
      length `k + 1`: every shorter leading part starts the other id, and
      that one does not. */
  lemma SplitAtLen(ts: seq<Task>, pos: nat, k: nat)
    requires |ts| == 2 && pos < 2
    requires k < |ts[0].id| && k < |ts[1].id|
    requires ts[0].id[..k] == ts[1].id[..k] && ts[0].id[k] != ts[1].id[k]
    ensures ShortLen(ts, pos) == k + 1
  {
    var a, b := ts[pos].id, ts[1 - pos].id;
    forall l | 1 <= l <= k ensures OtherStartsWith(ts, pos, a[..l]) {
      assert a[..l] == a[..k][..l] == b[..k][..l] == b[..l];
      assert StartsWith(ts[1 - pos].id, a[..l]);
    }
    assert !StartsWith(b, a[..k + 1]) by {
      assert a[..k + 1][k] == a[k] != b[k];
    }
  }

  /** Two tasks with derived ids that first differ at index `k` both show
      the leading `k + 1` characters of their ids, and record that length. */
  lemma TwoIdsSplitAt(ts: seq<Task>, k: nat)
    requires |ts| == 2 && !ts[0].showFullId && !ts[1].showFullId
    requires k < |ts[0].id| && k < |ts[1].id|
    requires ts[0].id[..k] == ts[1].id[..k] && ts[0].id[k] != ts[1].id[k]
    ensures DisplayPrefix(ts, 0) == ts[0].id[..k + 1] && RecordedLen(ts, 0) == k + 1
    ensures DisplayPrefix(ts, 1) == ts[1].id[..k + 1] && RecordedLen(ts, 1) == k + 1
  {
    SplitAtLen(ts, 0, k);
    SplitAtLen(ts, 1, k);
  }

  /** For example, ids `abcd1234` and `abce5678` both need four characters. */
  lemma TwoCloseIds(ts: seq<Task>)
    requires |ts| == 2 && !ts[0].showFullId && !ts[1].showFullId
    requires ts[0].id == "abcd1234" && ts[1].id == "abce5678"
    ensures DisplayPrefix(ts, 0) == "abcd" && DisplayPrefix(ts, 1) == "abce"
    ensures RecordedLen(ts, 0) == 4 && RecordedLen(ts, 1) == 4
  {
    assert ts[0].id[..3] == ts[1].id[..3];
    TwoIdsSplitAt(ts, 3);
  }
}
