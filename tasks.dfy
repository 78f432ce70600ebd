/** The leaf entity of the tracker (src/task.rs): a task, how it is created,
    how its tags and description change, and the `desc | json` line format it
    is stored in. */
module Tasks {
  import opened Util
  import opened Text

  /** What the JSON half of a stored line carries: every field but the
      description (serde skips `desc` when writing and defaults it when
      reading). */
  datatype TaskRecord = TaskRecord(
    id: string,
    parentId: Option<string>,
    showFullId: bool,
    timestamp: real,
    tags: seq<string>)

  /** Code the task module calls and that is not modelled: SHA-1 rendered as
      lower-case hex, Rust's `Display` for `f64`, and serde_json. `fromJson`
      yields `None` where serde_json reports an error. */
  datatype Foreign = Foreign(
    sha1Hex: string -> string,
    showF64: real -> string,
    toJson: TaskRecord -> string,
    fromJson: string -> Option<TaskRecord>)

  /** The id `create` derives when none is given: the hex SHA-1 of the
      description followed by the printed creation time. */
  function DerivedId(desc: string, now: real, ext: Foreign): string {
    ext.sha1Hex(desc + ext.showF64(now))
  }

  class Task {
    // Nothing in the Rust code reassigns these four fields after a task exists.
    const id: string
    const parentId: Option<string>
    const showFullId: bool
    const timestamp: real
    var desc: string
    var tags: seq<string>

    /** `task::create`: an explicit id is kept verbatim and marked to be shown
        in full; otherwise the id is derived from the description and the
        clock reading `now`. */
    constructor Create(parentId: Option<string>, id: Option<string>, desc: string, now: real, ext: Foreign)
      ensures this.id == (if id.Some? then id.value else DerivedId(desc, now, ext))
      ensures this.showFullId == id.Some?
      ensures this.parentId == parentId
      ensures this.timestamp == now
      ensures this.desc == desc && this.tags == []
    {
      this.id := if id.Some? then id.value else DerivedId(desc, now, ext);
      this.showFullId := id.Some?;
      this.parentId := parentId;
      this.timestamp := now;
      this.desc := desc;
      this.tags := [];
    }

    /** A task decoded from the JSON half of a line, whose description is then
        set from the text before the bar. */
    constructor FromRecord(rec: TaskRecord, desc: string)
      ensures Record() == rec && this.desc == desc
    {
      this.id := rec.id;
      this.parentId := rec.parentId;
      this.showFullId := rec.showFullId;
      this.timestamp := rec.timestamp;
      this.tags := rec.tags;
      this.desc := desc;
    }

    /** The fields serde writes to the JSON half. */
    function Record(): TaskRecord
      reads this
    {
      TaskRecord(id, parentId, showFullId, timestamp, tags)
    }

    /** `to_file_string`. */
    function ToFileString(ext: Foreign): string
      reads this
    {
      FileString(desc, Record(), ext)
    }

    /** `set_desc`: only the description changes; the frame and the constant
        fields keep the id, parent, flag, timestamp and tags as they were. */
    method SetDesc(desc: string)
      modifies this`desc
      ensures this.desc == desc
    {
      this.desc := desc;
    }

    /** `add_tag`: a tag already present is not added again. */
    method AddTag(tag: string)
      modifies this`tags
      ensures tags == WithTag(old(tags), tag)
      ensures tag in tags
      ensures NoDup(old(tags)) ==> NoDup(tags)
    {
      if NoDup(tags) {
        WithTagKeepsNoDup(tags, tag);
      }
      if tag !in tags {
        tags := tags + [tag];
      }
    }

    /** `remove_tag`: `retain` keeps every tag different from `tag`. */
    method RemoveTag(tag: string)
      modifies this`tags
      ensures tags == WithoutTag(old(tags), tag)
      ensures tag !in tags
    {
      tags := WithoutTag(tags, tag);
      WithoutTagFacts(old(tags), tag);
    }
  }

  /** The tag list after `add_tag`. */
  function WithTag(tags: seq<string>, tag: string): seq<string> {
    if tag in tags then tags else tags + [tag]
  }

  /** The tag list after `remove_tag`. */
  function WithoutTag(tags: seq<string>, tag: string): seq<string> {
    Filter(tags, x => x != tag)
  }

  /** Adding a tag that is present changes nothing, adding a new one puts it
      last, and either way the tags held are the old ones and `tag`. */
  lemma WithTagFacts(tags: seq<string>, tag: string)
    ensures tag in tags ==> WithTag(tags, tag) == tags
    ensures tag !in tags ==> WithTag(tags, tag) == tags + [tag]
    ensures forall x :: x in WithTag(tags, tag) <==> x in tags || x == tag
    ensures WithTag(WithTag(tags, tag), tag) == WithTag(tags, tag)
  {
  }

  /** Adding a tag keeps a duplicate-free tag list duplicate-free. */
  lemma WithTagKeepsNoDup(tags: seq<string>, tag: string)
    requires NoDup(tags)
    ensures NoDup(WithTag(tags, tag))
  {
    if tag !in tags {
      var r := tags + [tag];
      forall i, j | 0 <= i < j < |r| ensures r[i] != r[j] {
        if j == |tags| {
          assert r[i] == tags[i];
        }
      }
    }
  }

  /** Removing a tag drops every occurrence of it, keeps every other tag in
      its order, is a no-op when the tag is absent, and is idempotent. */
  lemma WithoutTagFacts(tags: seq<string>, tag: string)
    ensures tag !in WithoutTag(tags, tag)
    ensures forall x :: x != tag ==> (x in WithoutTag(tags, tag) <==> x in tags)
    ensures IsSubseq(WithoutTag(tags, tag), tags)
    ensures tag !in tags ==> WithoutTag(tags, tag) == tags
    ensures WithoutTag(WithoutTag(tags, tag), tag) == WithoutTag(tags, tag)
    ensures NoDup(tags) ==> NoDup(WithoutTag(tags, tag))
  {
    var keep := x => x != tag;
    var r := Filter(tags, keep);
    FilterIsSubseq(tags, keep);
    SubseqMembers(r, tags);
    forall x | x != tag && x in tags ensures x in r {
      var i :| 0 <= i < |tags| && tags[i] == x;
    }
    forall x | x in r ensures x != tag {
      var i :| 0 <= i < |r| && r[i] == x;
    }
    if tag !in tags {
      FilterKeepsAll(tags, keep);
    }
    FilterKeepsAll(r, keep);
    if NoDup(tags) {
      FilterNoDup(tags, keep);
    }
  }

  /** `split_once`: `splitn(2, '|')`, cut at the first bar. */
  function SplitOnce(s: string): (Option<string>, Option<string>) {
    var i := IndexOf(s, '|');
    if i == |s| then (Some(s), None) else (Some(s[..i]), Some(s[i + 1..]))
  }

  /** The first part always exists and holds no bar; there is a second part
      exactly when `s` has a bar, and then the two parts joined by a bar give
      `s` back; otherwise the first part is all of `s`. */
  lemma SplitOnceFacts(s: string)
    ensures SplitOnce(s).0.Some? && '|' !in SplitOnce(s).0.value
    ensures SplitOnce(s).1.None? <==> '|' !in s
    ensures SplitOnce(s).1.None? ==> SplitOnce(s).0.value == s
    ensures SplitOnce(s).1.Some? ==> SplitOnce(s).0.value + "|" + SplitOnce(s).1.value == s
  {
    var i := IndexOf(s, '|');
    if i == |s| {
      assert s[..i] == s;
    } else {
      assert s == s[..i] + "|" + s[i + 1..];
    }
  }

  /** The split happens at the first bar: whatever follows it, bars included,
      is the second part. */
  lemma SplitAtFirstBar(before: string, after: string)
    requires '|' !in before
    ensures SplitOnce(before + "|" + after) == (Some(before), Some(after))
  {
    var s := before + "|" + after;
    var i := IndexOf(s, '|');
    assert s[|before|] == '|';
    assert s[..|before|] == before;
    assert i == |before|;
    assert s[..i] == before && s[i + 1..] == after;
  }

  /** What one stored line yields, in the terms of `create_from_file_string`:
      a task created afresh from a description, a decoded record with its
      trimmed description, or a JSON half that does not decode (where the
      Rust code's `unwrap` panics). */
  datatype Parsed = Fresh(desc: string) | Stored(desc: string, rec: TaskRecord) | Malformed

  /** `create_from_file_string`, apart from building the task. */
  function ParseLine(line: string, ext: Foreign): Parsed {
    var parts := SplitOnce(line);
    if parts.0.None? then Fresh("")  // never taken: the first part always exists
    else if parts.1.None? then Fresh(parts.0.value)
    // `json.trim().is_empty()`: by `Trim`'s contract, the JSON half is blank
    else if IsBlank(parts.1.value) then Fresh(parts.0.value)
    else match ext.fromJson(parts.1.value)
      case None => Malformed
      case Some(rec) => Stored(Trim(parts.0.value), rec)
  }

  /** A line without a bar is a bare description, kept untrimmed. */
  lemma ParseBareLine(line: string, ext: Foreign)
    requires '|' !in line
    ensures ParseLine(line, ext) == Fresh(line)
  {
  }

  /** A line with a bar: a blank JSON half again gives a bare description,
      otherwise the decoded record with the trimmed text before the bar. */
  lemma ParseBarLine(before: string, after: string, ext: Foreign)
    requires '|' !in before
    ensures IsBlank(after) ==> ParseLine(before + "|" + after, ext) == Fresh(before)
    ensures !IsBlank(after) && ext.fromJson(after).None? ==> ParseLine(before + "|" + after, ext) == Malformed
    ensures !IsBlank(after) && ext.fromJson(after).Some? ==>
      ParseLine(before + "|" + after, ext) == Stored(Trim(before), ext.fromJson(after).value)
  {
    SplitAtFirstBar(before, after);
  }

  /** The `desc | json` line `to_file_string` writes. */
  function FileString(desc: string, rec: TaskRecord, ext: Foreign): string {
    desc + " | " + ext.toJson(rec)
  }

  /** The JSON codec reads back what it wrote, after the space the line
      format puts before it, and never writes a blank text. */
  predicate CodecRoundTrips(ext: Foreign, rec: TaskRecord) {
    ext.fromJson(" " + ext.toJson(rec)) == Some(rec) && !IsBlank(ext.toJson(rec))
  }

  /** Round trip of the line format: a description without a bar and without
      surrounding white space comes back unchanged, with the record. */
  lemma FileStringRoundTrip(desc: string, rec: TaskRecord, ext: Foreign)
    requires '|' !in desc && IsTrimmed(desc)
    requires CodecRoundTrips(ext, rec)
    ensures ParseLine(FileString(desc, rec, ext), ext) == Stored(desc, rec)
  {
    var json := ext.toJson(rec);
    assert FileString(desc, rec, ext) == (desc + " ") + "|" + (" " + json);
    assert '|' !in desc + " ";
    assert !IsBlank(" " + json) by {
      var i :| 0 <= i < |json| && !IsWhite(json[i]);
      assert (" " + json)[i + 1] == json[i];
    }
    ParseBarLine(desc + " ", " " + json, ext);
    TrimPadded(desc);
  }

  /** A task as `create_from_file_string` builds it from a parsed line. */
  ghost predicate Loaded(t: Task, p: Parsed, now: real, ext: Foreign)
    reads t
  {
    match p
    case Fresh(d) =>
      t.id == DerivedId(d, now, ext) && !t.showFullId && t.parentId == None
      && t.timestamp == now && t.desc == d && t.tags == []
    case Stored(d, rec) => t.Record() == rec && t.desc == d
    case Malformed => false
  }

  /** `create_from_file_string`: a line the Rust code would panic on gives
      `None`; every other line gives a new task. */
  method CreateFromFileString(line: string, now: real, ext: Foreign) returns (r: Option<Task>)
    ensures r.None? <==> ParseLine(line, ext).Malformed?
    ensures r.Some? ==> fresh(r.value) && Loaded(r.value, ParseLine(line, ext), now, ext)
  {
    var parsed := ParseLine(line, ext);
    if parsed.Fresh? {
      var t := new Task.Create(None, None, parsed.desc, now, ext);
      r := Some(t);
    } else if parsed.Stored? {
      var t := new Task.FromRecord(parsed.rec, parsed.desc);
      r := Some(t);
    } else {
      r := None;
    }
  }
}
