/** The order `save` (src/task_list.rs) writes tasks in: ascending by id, as
    Rust's stable `sort_by` on `String` leaves them. */
module IdOrder {
  import opened Text
  import opened Tasks

  /** The ids ascend along the sequence. */
  ghost predicate SortedById(ts: seq<Task>) {
    forall i, j :: 0 <= i < j < |ts| ==> LexLe(ts[i].id, ts[j].id)
  }

  /** `t` placed before the first task whose id sorts strictly after it. */
  function InsertById(t: Task, s: seq<Task>): (r: seq<Task>)
    requires SortedById(s)
    ensures SortedById(r)
    ensures multiset(r) == multiset(s) + multiset{t}
  {
    if s == [] then [t]
    else if LexLe(t.id, s[0].id) then
      forall j | 0 <= j < |s| ensures LexLe(t.id, s[j].id) {
        if j > 0 { LexLeTrans(t.id, s[0].id, s[j].id); }
      }
      assert s == [s[0]] + s[1..];
      [t] + s
    else
      LexLeTotal(t.id, s[0].id);
      var rest := InsertById(t, s[1..]);
      forall j | 0 <= j < |rest| ensures LexLe(s[0].id, rest[j].id) {
        assert rest[j] in multiset(rest);
        if rest[j] != t {
          assert rest[j] in multiset(s[1..]);
          var k :| 0 <= k < |s[1..]| && s[1..][k] == rest[j];
          assert s[k + 1] == rest[j];
        }
      }
      assert s == [s[0]] + s[1..];
      [s[0]] + rest
  }

  /** The tasks as `save` orders them before writing: ascending ids, and the
      same tasks, each as often as in the list. */
  function SortById(s: seq<Task>): (r: seq<Task>)
    ensures SortedById(r)
    ensures multiset(r) == multiset(s)
    ensures |r| == |s|
  {
    if s == [] then []
    else
      assert s == [s[0]] + s[1..];
      InsertById(s[0], SortById(s[1..]))
  }
}
