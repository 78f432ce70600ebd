/** The task list (src/task_list.rs): the tasks in file order, the display
    prefixes computed for them, and the operations that look tasks up by
    prefix, add and remove them, load them from lines and save them. */
module TaskLists {
  import opened Util
  import opened Text
  import opened Errors
  import opened Tasks
  import opened PrefixLookup
  import opened PrefixCompression
  import opened IdOrder

  /** The ids of the tasks, in list order. */
  function Ids(ts: seq<Task>): (r: seq<string>)
    ensures |r| == |ts|
    ensures forall i :: 0 <= i < |ts| ==> r[i] == ts[i].id
  {
    seq(|ts|, i requires 0 <= i < |ts| => ts[i].id)
  }

  /** No two tasks share an id. */
  predicate UniqueIds(ts: seq<Task>) {
    forall i, j :: 0 <= i < j < |ts| ==> ts[i].id != ts[j].id
  }

  /** The tasks whose parent is `id`, in list order. */
  function ChildrenOf(ts: seq<Task>, id: string): seq<Task> {
    Filter(ts, (t: Task) => t.parentId == Some(id))
  }

  /** The list after `retain` drops every task with id `id`. */
  function WithoutId(ts: seq<Task>, id: string): seq<Task> {
    Filter(ts, (t: Task) => t.id != id)
  }

  /** `a` keeps some of the tasks of `b`, in order, and is either `b` itself
      or shorter. */
  ghost predicate Shrunk(a: seq<Task>, b: seq<Task>) {
    IsSubseq(a, b) && (a == b || |a| < |b|)
  }

  lemma ShrunkTrans(a: seq<Task>, b: seq<Task>, c: seq<Task>)
    requires Shrunk(a, b) && Shrunk(b, c)
    ensures Shrunk(a, c)
  {
    SubseqTrans(a, b, c);
  }

  /** Appending a task whose id is new keeps the ids distinct. */
  lemma AppendKeepsUnique(ts: seq<Task>, t: Task)
    requires UniqueIds(ts) && t.id !in Ids(ts)
    ensures UniqueIds(ts + [t])
  {
    forall i | 0 <= i < |ts| ensures ts[i].id != t.id {
      assert Ids(ts)[i] == ts[i].id;
    }
  }

  /** `rank` strictly decreases from a parent to each of its children: the
      parent links among the tasks have no cycle. */
  ghost predicate Ranked(ts: seq<Task>, rank: string -> nat) {
    forall i, j :: 0 <= i < |ts| && 0 <= j < |ts| && ts[i].parentId == Some(ts[j].id) ==>
      rank(ts[i].id) < rank(ts[j].id)
  }

  /** The rank of the id a prefix resolves to (0 when it resolves to none). */
  ghost function ResolvedRank(ids: seq<string>, prefix: string, rank: string -> nat): nat {
    var res := ResolvePrefix(ids, prefix);
    if res.Ok? then rank(res.value) else 0
  }

  /** Every task of `after` names as parent no task that `before` had and
      `after` lost. */
  ghost predicate NoDanglingToRemoved(before: seq<Task>, after: seq<Task>) {
    forall i, j :: 0 <= i < |after| && 0 <= j < |before| && before[j] !in after ==>
      after[i].parentId != Some(before[j].id)
  }

  /** Filtering one more task keeps it exactly when it is a child. */
  lemma ChildrenOfAppend(ts: seq<Task>, t: Task, id: string)
    ensures ChildrenOf(ts + [t], id)
            == ChildrenOf(ts, id) + (if t.parentId == Some(id) then [t] else [])
  {
    FilterAppend(ts, t, (t: Task) => t.parentId == Some(id));
  }

  /** Where the forced removal of the children of one task stands: the list
      `now` keeps some of the tasks of `before`, none of the first `k`
      children's ids is left, and no task left names a lost one as parent. */
  ghost predicate Pruned(before: seq<Task>, now: seq<Task>, childIds: seq<string>, k: nat)
    requires k <= |childIds|
  {
    && Shrunk(now, before)
    && (forall j :: 0 <= j < k ==> childIds[j] !in Ids(now))
    && NoDanglingToRemoved(before, now)
  }

  /** The children of `id` are exactly the tasks whose parent it is, in list order. */
  lemma ChildrenOfFacts(ts: seq<Task>, id: string)
    ensures forall t :: t in ChildrenOf(ts, id) <==> t in ts && t.parentId == Some(id)
    ensures IsSubseq(ChildrenOf(ts, id), ts)
  {
    var keep := (t: Task) => t.parentId == Some(id);
    FilterIsSubseq(ts, keep);
    SubseqMembers(ChildrenOf(ts, id), ts);
  }

  /** `retain` keeps exactly the tasks with another id, in list order. */
  lemma WithoutIdFacts(ts: seq<Task>, id: string)
    ensures forall t :: t in WithoutId(ts, id) <==> t in ts && t.id != id
    ensures IsSubseq(WithoutId(ts, id), ts)
    ensures id !in Ids(WithoutId(ts, id))
    ensures (forall i :: 0 <= i < |ts| ==> ts[i].id != id) ==> WithoutId(ts, id) == ts
  {
    var keep := (t: Task) => t.id != id;
    var r := WithoutId(ts, id);
    FilterIsSubseq(ts, keep);
    SubseqMembers(r, ts);
    if forall i :: 0 <= i < |ts| ==> ts[i].id != id {
      FilterKeepsAll(ts, keep);
    }
  }

  /** A ranking of a list ranks every sub-list of it. */
  lemma RankedSubseq(a: seq<Task>, b: seq<Task>, rank: string -> nat)
    requires IsSubseq(a, b) && Ranked(b, rank)
    ensures Ranked(a, rank)
  {
    SubseqMembers(a, b);
    forall i, j | 0 <= i < |a| && 0 <= j < |a| && a[i].parentId == Some(a[j].id)
      ensures rank(a[i].id) < rank(a[j].id)
    {
      assert a[i] in b && a[j] in b;
      var i' :| 0 <= i' < |b| && b[i'] == a[i];
      var j' :| 0 <= j' < |b| && b[j'] == a[j];
    }
  }

  /** An id absent from a list is absent from each of its sub-lists. */
  lemma IdAbsentSubseq(a: seq<Task>, b: seq<Task>, id: string)
    requires IsSubseq(a, b) && id !in Ids(b)
    ensures id !in Ids(a)
  {
    SubseqMembers(a, b);
  }

  /** Two removals in a row leave no dangling parent link to what either
      removed, provided each left none to its own. */
  lemma NoDanglingTrans(before: seq<Task>, mid: seq<Task>, after: seq<Task>)
    requires IsSubseq(mid, before) && IsSubseq(after, mid)
    requires NoDanglingToRemoved(before, mid) && NoDanglingToRemoved(mid, after)
    ensures NoDanglingToRemoved(before, after)
  {
    SubseqMembers(after, mid);
    forall i, j | 0 <= i < |after| && 0 <= j < |before| && before[j] !in after
      ensures after[i].parentId != Some(before[j].id)
    {
      assert after[i] in mid;
      var i' :| 0 <= i' < |mid| && mid[i'] == after[i];
      if before[j] in mid {
        var j' :| 0 <= j' < |mid| && mid[j'] == before[j];
        assert mid[j'] !in after;
      }
    }
  }

  // ---------------------------------------------------------------------
  // The duplicate check of `add_task` (src/task_list.rs, lines 104-111).

  /** As written: the id is looked up as a prefix with `get_task`, and it is
      a duplicate when that lookup succeeds with a task of exactly this id. */
  predicate IsDuplicateByLookup(ids: seq<string>, id: string) {
    ResolvePrefix(ids, id) == Ok(id)
  }

  /** As intended: some task already has this id. */
  predicate IsDuplicateId(ids: seq<string>, id: string) {
    id in ids
  }

  /** The lookup never reports a duplicate that is not one. */
  lemma LookupDuplicateSound(ids: seq<string>, id: string)
    ensures IsDuplicateByLookup(ids, id) ==> IsDuplicateId(ids, id)
  {
    ResolveSound(ids, id);
  }

  /** But it misses one: two longer ids starting with the new id, listed
      before the task that has it, make the lookup ambiguous. */
  lemma LookupMissesDuplicate()
    ensures IsDuplicateId(["abc", "abd", "ab"], "ab")
    ensures !IsDuplicateByLookup(["abc", "abd", "ab"], "ab")
  {
    var ids := ["abc", "abd", "ab"];
    assert StartsWith(ids[0], "ab") && StartsWith(ids[1], "ab");
    assert ids[0] != "ab" && ids[1] != "ab";
    assert FirstExact(ids, "ab") == 2 by {
      assert FirstExact(ids[2..], "ab") == 0;
      assert ids[1..][1..] == ids[2..];
    }
    DuplicateCounts(ids[..2], "ab", 0, 1);
  }

  /** In ascending id order, the order `save` writes, the lookup is exact: an
      id sorts before every longer id it starts, so no two of those can come
      before it. */
  lemma LookupDuplicateExactWhenSorted(ids: seq<string>, id: string)
    requires forall i, j :: 0 <= i < j < |ids| ==> LexLe(ids[i], ids[j])
    ensures IsDuplicateByLookup(ids, id) <==> IsDuplicateId(ids, id)
  {
    LookupDuplicateSound(ids, id);
    if id in ids {
      var e := FirstExact(ids, id);
      var init := ids[..e];
      forall j | 0 <= j < |init| ensures !StartsWith(init[j], id) {
        assert init[j] == ids[j] && ids[j] != id;
        if StartsWith(ids[j], id) {
          ExtensionSortsAfter(ids[j], id);
        }
      }
    }
  }

  // ---------------------------------------------------------------------

  /** The inner loops of `compute_prefixes` for a task whose id was
      derived: lengthen the leading part of the id until no other task's id
      starts with it, or until it is the whole id. */
  method SearchPrefix(ts: seq<Task>, pos: nat) returns (prefix: string, len: nat)
    requires pos < |ts|
    ensures len == ShortLen(ts, pos)
    ensures prefix == (if len <= |ts[pos].id| then ts[pos].id[..len] else ts[pos].id)
  {
    var id := ts[pos].id;
    len := 1;
    var unique := false;
    prefix := "";
    while !unique && len <= |id|
      invariant 1 <= len <= |id| + 1
      invariant UniqueLen(ts, pos, len) == ShortLen(ts, pos)
      invariant unique ==> len <= |id| && len == ShortLen(ts, pos) && prefix == id[..len]
      invariant !unique ==> prefix == id[..len - 1]
      decreases |id| + 1 - len + (if unique then 0 else 1)
    {
      prefix := id[..len];
      unique := true;
      var pos2 := 0;
      while pos2 < |ts|
        invariant pos2 <= |ts|
        invariant forall j :: 0 <= j < pos2 && j != pos ==> !StartsWith(ts[j].id, prefix)
      {
        if pos2 == pos {
          pos2 := pos2 + 1;
          continue;
        }
        if StartsWith(ts[pos2].id, prefix) {
          assert OtherStartsWith(ts, pos, prefix);
          unique := false;
          len := len + 1;
          break;
        }
        pos2 := pos2 + 1;
      }
    }
    if !unique {
      assert id[..|id|] == id;
    }
  }

  class TaskList {
    const file: string
    var tasks: seq<Task>
    var prefixes: map<string, string>
    var prefixMaxLen: nat

    /** The prefix table and its width are those computed from the tasks. */
    ghost predicate Valid()
      reads this
    {
      prefixes == PrefixMap(tasks, |tasks|) && prefixMaxLen == MaxLen(tasks, |tasks|)
    }

    /** The struct literal of `create_from_file` followed by `compute_prefixes`. */
    constructor Init(file: string, tasks: seq<Task>)
      ensures Valid() && this.file == file && this.tasks == tasks
    {
      this.file := file;
      this.tasks := tasks;
      prefixes := map[];
      prefixMaxLen := 64;
      new;
      ComputePrefixes();
    }

    /** `compute_prefixes`: every task's display prefix goes into the map,
        under its id, and the widest length into `prefixMaxLen`. */
    method ComputePrefixes()
      modifies this`prefixes, this`prefixMaxLen
      ensures Valid()
    {
      var ts := tasks;  // the list being iterated; nothing below changes it
      var maxLen := 1;
      var m := map[];
      var pos := 0;
      while pos < |ts|
        invariant pos <= |ts|
        invariant m == PrefixMap(ts, pos)
        invariant maxLen == MaxLen(ts, pos)
      {
        var task := ts[pos];
        var prefix: string, len: nat;
        if task.showFullId {
          prefix := task.id;
          len := |prefix|;
        } else {
          prefix, len := SearchPrefix(ts, pos);
        }
        assert prefix == DisplayPrefix(ts, pos) && len == RecordedLen(ts, pos);
        if len > maxLen {
          maxLen := len;
        }
        m := m[task.id := prefix];
        pos := pos + 1;
      }
      prefixes, prefixMaxLen := m, maxLen;
    }

    /** `get_full_id`: one scan in list order, as `ResolvePrefix` specifies. */
    method GetFullId(prefix: string) returns (r: Result<string>)
      ensures r == ResolvePrefix(Ids(tasks), prefix)
    {
      ghost var ids := Ids(tasks);
      var fullId: Option<string> := None;
      var i := 0;
      ScanStart(ids, prefix);
      while i < |tasks|
        invariant i <= |tasks|
        invariant ScannedSoFar(ids, prefix, i, fullId)
      {
        var task := tasks[i];
        if task.id == prefix {
          // the Rust code breaks out of the loop with this id and returns it
          ScanExact(ids, prefix, i, fullId);
          return Ok(task.id);
        }
        if StartsWith(task.id, prefix) && fullId.Some? {
          ScanAmbiguous(ids, prefix, i, fullId);
          return Err(AmbiguousPrefix);
        }
        ScanStep(ids, prefix, i, fullId);
        if StartsWith(task.id, prefix) {
          fullId := Some(task.id);
        }
        i := i + 1;
      }
      ScanEnd(ids, prefix, fullId);
      if fullId.Some? {
        r := Ok(fullId.value);
      } else {
        r := Err(BadPrefix);
      }
    }

    /** `get_task`: the first task carrying the resolved id. */
    method GetTask(prefix: string) returns (r: Result<Task>)
      ensures var res := ResolvePrefix(Ids(tasks), prefix);
        res.Err? ==> r == Err(res.error)
      ensures var res := ResolvePrefix(Ids(tasks), prefix);
        res.Ok? ==> r.Ok? && r.value.id == res.value && r.value == tasks[FirstExact(Ids(tasks), res.value)]
    {
      var full := GetFullId(prefix);
      if full.Err? {
        return Err(full.error);
      }
      ResolveSound(Ids(tasks), prefix);
      ghost var k := FirstExact(Ids(tasks), full.value);
      var i := 0;
      while i < |tasks|
        invariant i <= k < |tasks|
      {
        if tasks[i].id == full.value {
          return Ok(tasks[i]);
        }
        i := i + 1;
      }
      r := Err(BadPrefix);  // unreachable: the resolved id is in the list
    }

    /** `get_children_tasks`: the tasks whose parent is the resolved id. */
    method GetChildrenTasks(prefix: string) returns (r: Result<seq<Task>>)
      ensures var res := ResolvePrefix(Ids(tasks), prefix);
        res.Err? ==> r == Err(res.error)
      ensures var res := ResolvePrefix(Ids(tasks), prefix);
        res.Ok? ==> r == Ok(ChildrenOf(tasks, res.value))
    {
      var children: seq<Task> := [];
      var full := GetFullId(prefix);
      if full.Err? {
        return Err(full.error);
      }
      children := SelectChildren(tasks, full.value);
      r := Ok(children);
    }

    /** `add_task`, with the duplicate check `IsDuplicateId` of an explicit
        id. A duplicate or an unresolvable parent prefix leaves the list as it
        was; otherwise one new task is appended, with the resolved parent. */
    method AddTask(parentId: Option<string>, id: Option<string>, desc: string, now: real, ext: Foreign)
      returns (r: Result<()>)
      requires Valid()
      modifies this`tasks, this`prefixes, this`prefixMaxLen
      ensures Valid()
      ensures id.Some? && IsDuplicateId(old(Ids(tasks)), id.value) ==> r == Err(DuplicateTask)
      ensures (!(id.Some? && IsDuplicateId(old(Ids(tasks)), id.value)) && parentId.Some?
               && ResolvePrefix(old(Ids(tasks)), parentId.value).Err?) ==> r == Err(BadParentPrefix)
      ensures r.Ok? <==> (!(id.Some? && IsDuplicateId(old(Ids(tasks)), id.value))
                          && (parentId.Some? ==> ResolvePrefix(old(Ids(tasks)), parentId.value).Ok?))
      ensures r.Err? ==> tasks == old(tasks)
      ensures r.Ok? ==> |tasks| == |old(tasks)| + 1 && tasks[..|old(tasks)|] == old(tasks)
      ensures r.Ok? ==> var t := tasks[|old(tasks)|];
        && fresh(t)
        && t.id == (if id.Some? then id.value else DerivedId(desc, now, ext))
        && t.showFullId == id.Some?
        && t.parentId == (if parentId.Some? then Some(ResolvePrefix(old(Ids(tasks)), parentId.value).value) else None)
        && (t.parentId.Some? ==> t.parentId.value in old(Ids(tasks)))
        && t.timestamp == now && t.desc == desc && t.tags == []
      ensures r.Ok? && id.Some? && UniqueIds(old(tasks)) ==> UniqueIds(tasks)
    {
      if id.Some? && IsDuplicateId(Ids(tasks), id.value) {
        return Err(DuplicateTask);
      }
      var fullParentId: Option<string> := None;
      if parentId.Some? {
        var resolved := GetFullId(parentId.value);
        if resolved.Err? {
          return Err(BadParentPrefix);
        }
        ResolveSound(Ids(tasks), parentId.value);
        fullParentId := Some(resolved.value);
      }
      var task := new Task.Create(fullParentId, id, desc, now, ext);
      ghost var before := tasks;
      tasks := tasks + [task];
      assert tasks[..|before|] == before;
      if id.Some? && UniqueIds(before) {
        AppendKeepsUnique(before, task);
      }
      ComputePrefixes();
      r := Ok(());
    }

    /** `remove_task`. The prefix is resolved; a task with children is
        refused unless `force`, which first removes each child by its id;
        then every task with the resolved id goes. The recursion ends because
        parent links have no cycle, which `rank` witnesses. */
    method RemoveTask(prefix: string, force: bool, ghost rank: string -> nat) returns (r: Result<()>)
      requires Valid()
      requires force ==> Ranked(tasks, rank)
      modifies this`tasks, this`prefixes, this`prefixMaxLen
      decreases |tasks|, ResolvedRank(Ids(tasks), prefix, rank)
      ensures Valid()
      ensures Shrunk(tasks, old(tasks))
      ensures var res := ResolvePrefix(old(Ids(tasks)), prefix);
        res.Err? ==> r == Err(res.error) && tasks == old(tasks)
      ensures var res := ResolvePrefix(old(Ids(tasks)), prefix);
        res.Ok? && !force && ChildrenOf(old(tasks), res.value) != [] ==>
          r == Err(RemoveHasChildren) && tasks == old(tasks)
      ensures var res := ResolvePrefix(old(Ids(tasks)), prefix);
        res.Ok? && ChildrenOf(old(tasks), res.value) == [] ==>
          r == Ok(()) && tasks == WithoutId(old(tasks), res.value)
      ensures var res := ResolvePrefix(old(Ids(tasks)), prefix);
        r.Ok? ==> res.Ok? && forall i :: 0 <= i < |tasks| ==>
          tasks[i].id != res.value && tasks[i].parentId != Some(res.value)
      ensures r.Ok? ==> prefix !in Ids(tasks)
      ensures r.Ok? ==> NoDanglingToRemoved(old(tasks), tasks)
    {
      ghost var before := tasks;
      SubseqRefl(before);
      var full := GetFullId(prefix);
      if full.Err? {
        return Err(full.error);
      }
      var fullId := full.value;
      ResolveStable(Ids(tasks), prefix);
      var children := GetChildrenTasks(fullId);
      if children.Err? {
        assert false;
      }
      var childIds := Ids(children.value);
      assert Pruned(before, tasks, childIds, 0);
      if |childIds| > 0 {
        if force {
          var k := 0;
          while k < |childIds|
            invariant k <= |childIds|
            invariant Valid()
            invariant Pruned(before, tasks, childIds, k) && Ranked(tasks, rank)
          {
            ghost var mid := tasks;
            if mid == before {
              ChildRankDecreases(mid, fullId, prefix, childIds[k], rank);
            }
            var res := RemoveTask(childIds[k], force, rank);
            ShrunkTrans(tasks, mid, before);
            if res.Err? {
              return res;
            }
            RemovalStep(before, mid, tasks, childIds, k, rank);
            k := k + 1;
          }
        } else {
          return Err(RemoveHasChildren);
        }
      }
      DropResolved(fullId, prefix, before, childIds);
      r := Ok(());
    }

    /** The closing `retain` of `remove_task` and the recomputed prefixes,
        once the children of the resolved id are gone. */
    method DropResolved(fullId: string, prefix: string, ghost before: seq<Task>, ghost childIds: seq<string>)
      requires ResolvePrefix(Ids(before), prefix) == Ok(fullId)
      requires childIds == Ids(ChildrenOf(before, fullId))
      requires Pruned(before, tasks, childIds, |childIds|)
      modifies this`tasks, this`prefixes, this`prefixMaxLen
      ensures Valid()
      ensures tasks == WithoutId(old(tasks), fullId)
      ensures Shrunk(tasks, before)
      ensures forall i :: 0 <= i < |tasks| ==> tasks[i].id != fullId && tasks[i].parentId != Some(fullId)
      ensures prefix !in Ids(tasks)
      ensures NoDanglingToRemoved(before, tasks)
    {
      var after := WithoutId(tasks, fullId);
      RemovalFinish(before, tasks, fullId, childIds, prefix);
      tasks := after;
      ComputePrefixes();
    }

    /** `save`, apart from the file: the lines written, one per task in
        ascending id order, each in the `desc | json` format. */
    method Save(ext: Foreign) returns (lines: seq<string>)
      ensures |lines| == |tasks|
      ensures var sorted := SortById(tasks);
        forall i :: 0 <= i < |lines| ==> lines[i] == sorted[i].ToFileString(ext)
    {
      var sorted := SortById(tasks);
      lines := [];
      for i := 0 to |sorted|
        invariant |lines| == i
        invariant forall j :: 0 <= j < i ==> lines[j] == sorted[j].ToFileString(ext)
      {
        lines := lines + [sorted[i].ToFileString(ext)];
      }
    }
  }

  /** Helper for the termination of `RemoveTask`: a child of the resolved
      task resolves, if at all, to an id of smaller rank. */
  lemma ChildRankDecreases(ts: seq<Task>, fullId: string, prefix: string, childId: string, rank: string -> nat)
    requires Ranked(ts, rank)
    requires ResolvePrefix(Ids(ts), prefix) == Ok(fullId)
    requires childId in Ids(ChildrenOf(ts, fullId))
    ensures ResolvedRank(Ids(ts), childId, rank) < rank(fullId)
  {
    ResolveSound(Ids(ts), prefix);
    ChildrenOfFacts(ts, fullId);
    var cs := ChildrenOf(ts, fullId);
    var c :| 0 <= c < |cs| && Ids(cs)[c] == childId;
    assert cs[c] in ts;
    var i :| 0 <= i < |ts| && ts[i] == cs[c];
    var j :| 0 <= j < |ts| && Ids(ts)[j] == fullId;
    assert Ids(ts)[i] == childId;
    ResolveMember(Ids(ts), childId);
  }

  /** Why a forced removal's outcome depends on more than the subtree: each
      child is removed by looking its id up as a prefix. Two children of `p`
      sharing the id `ab`, listed before an unrelated root task `abc`: the
      first lookup finds `ab`, and `retain` drops both children. The second
      lookup of `ab` then resolves to `abc`, which is removed too. */
  lemma RepeatedChildIdHitsOtherTask()
    ensures ResolvePrefix(["p", "ab", "ab", "abc"], "ab") == Ok("ab")
    ensures ResolvePrefix(["p", "abc"], "ab") == Ok("abc")
  {
    var before, after := ["p", "ab", "ab", "abc"], ["p", "abc"];
    assert FirstExact(before, "ab") == 1 by {
      assert before[0] != "ab" && FirstExact(before[1..], "ab") == 0;
    }
    assert before[..1] == ["p"] && !StartsWith("p", "ab");
    assert FirstExact(after, "ab") == 2 by {
      assert after[1..][1..] == [];
    }
    assert after[..2] == after;
    assert FirstMatch(after, "ab") == 1 by {
      assert !StartsWith(after[0], "ab") && StartsWith(after[1..][0], "ab");
    }
  }

  /** One step of the forced removal loop keeps its invariant. */
  lemma RemovalStep(before: seq<Task>, mid: seq<Task>, after: seq<Task>, childIds: seq<string>, k: nat,
                    rank: string -> nat)
    requires k < |childIds| && Pruned(before, mid, childIds, k) && Ranked(mid, rank)
    requires Shrunk(after, mid) && childIds[k] !in Ids(after) && NoDanglingToRemoved(mid, after)
    ensures Pruned(before, after, childIds, k + 1) && Ranked(after, rank)
  {
    ShrunkTrans(after, mid, before);
    RankedSubseq(after, mid, rank);
    forall j | 0 <= j < k ensures childIds[j] !in Ids(after) {
      IdAbsentSubseq(after, mid, childIds[j]);
    }
    NoDanglingTrans(before, mid, after);
  }

  /** The final `retain`: once every child is gone, dropping the tasks with
      the resolved id leaves no task with that id, none naming it as
      parent, no dangling link, and the prefix no longer a full id. */
  lemma RemovalFinish(before: seq<Task>, mid: seq<Task>, fullId: string, childIds: seq<string>, prefix: string)
    requires ResolvePrefix(Ids(before), prefix) == Ok(fullId)
    requires childIds == Ids(ChildrenOf(before, fullId))
    requires Pruned(before, mid, childIds, |childIds|)
    ensures Shrunk(WithoutId(mid, fullId), before)
    ensures forall i :: 0 <= i < |WithoutId(mid, fullId)| ==>
      WithoutId(mid, fullId)[i].id != fullId && WithoutId(mid, fullId)[i].parentId != Some(fullId)
    ensures prefix !in Ids(WithoutId(mid, fullId))
    ensures NoDanglingToRemoved(before, WithoutId(mid, fullId))
  {
    var after := WithoutId(mid, fullId);
    WithoutIdFacts(mid, fullId);
    SubseqLength(after, mid);
    ShrunkTrans(after, mid, before);
    NoChildLeft(before, mid, fullId, childIds);
    SubseqMembers(after, mid);
    assert NoDanglingToRemoved(mid, after);
    NoDanglingTrans(before, mid, after);
    if prefix in Ids(before) {
      ResolveMember(Ids(before), prefix);
    } else {
      IdAbsentSubseq(after, before, prefix);
    }
  }

  /** Once every child's id is gone, no task left names `fullId` as parent. */
  lemma NoChildLeft(before: seq<Task>, mid: seq<Task>, fullId: string, childIds: seq<string>)
    requires childIds == Ids(ChildrenOf(before, fullId))
    requires Pruned(before, mid, childIds, |childIds|)
    ensures forall i :: 0 <= i < |mid| ==> mid[i].parentId != Some(fullId)
  {
    SubseqMembers(mid, before);
    ChildrenOfFacts(before, fullId);
  }

  /** Each task was loaded from the line at its position. */
  ghost predicate LoadedFrom(ts: seq<Task>, lines: seq<string>, now: real, ext: Foreign)
    requires |ts| <= |lines|
    reads ts
  {
    forall j :: 0 <= j < |ts| ==> Loaded(ts[j], ParseLine(lines[j], ext), now, ext)
  }

  /** The loop of `get_children_tasks`: the tasks whose parent is `id`, in
      list order. */
  method SelectChildren(ts: seq<Task>, id: string) returns (children: seq<Task>)
    ensures children == ChildrenOf(ts, id)
  {
    children := [];
    var i := 0;
    while i < |ts|
      invariant i <= |ts|
      invariant children == ChildrenOf(ts[..i], id)
    {
      assert ts[..i + 1] == ts[..i] + [ts[i]];
      ChildrenOfAppend(ts[..i], ts[i], id);
      if ts[i].parentId == Some(id) {
        children := children + [ts[i]];
      }
      i := i + 1;
    }
    assert ts[..i] == ts;
  }

  /** The loop of `create_from_file`: one task per line, in order. */
  method LoadTasks(lines: seq<string>, now: real, ext: Foreign) returns (r: Option<seq<Task>>)
    ensures r.None? <==> exists i :: 0 <= i < |lines| && ParseLine(lines[i], ext).Malformed?
    ensures r.Some? ==> |r.value| == |lines|
    ensures r.Some? ==> forall i :: 0 <= i < |lines| ==> Loaded(r.value[i], ParseLine(lines[i], ext), now, ext)
  {
    var tasks: seq<Task> := [];
    var i := 0;
    while i < |lines|
      invariant i <= |lines| && |tasks| == i
      invariant LoadedFrom(tasks, lines, now, ext)
    {
      var t := CreateFromFileString(lines[i], now, ext);
      if t.None? {
        return None;
      }
      tasks := tasks + [t.value];
      i := i + 1;
    }
    assert forall j :: 0 <= j < |lines| ==> !ParseLine(lines[j], ext).Malformed? by {
      assert LoadedFrom(tasks, lines, now, ext);
    }
    r := Some(tasks);
  }

  /** `create_from_file` over the lines of the file. */
  method CreateFromFile(file: string, lines: seq<string>, now: real, ext: Foreign) returns (r: Option<TaskList>)
    ensures r.None? <==> exists i :: 0 <= i < |lines| && ParseLine(lines[i], ext).Malformed?
    ensures r.Some? ==> fresh(r.value) && r.value.Valid() && r.value.file == file
    ensures r.Some? ==> |r.value.tasks| == |lines|
    ensures r.Some? ==> forall i :: 0 <= i < |lines| ==> Loaded(r.value.tasks[i], ParseLine(lines[i], ext), now, ext)
  {
    var tasks := LoadTasks(lines, now, ext);
    if tasks.None? {
      return None;
    }
    var list := new TaskList.Init(file, tasks.value);
    r := Some(list);
  }
}
