/**
 * The sharding writer of the conversation-reconstruction pipeline: records
 * grouped under a `'{month}at{year}'` key are projected onto a fixed schema
 * and appended, one JSON line each, to
 * `<output>year-<year>/month-<month>/revisions-<index>.json`, rotating to a
 * fresh file when the month or year changes or the current file has grown
 * past a size threshold.
 *
 * The file system is a map from existing paths to the lines written to
 * them; `json.dumps` is a parameter of `Process`.
 */
module ShardWriter {
  import opened Wrappers
  import opened Text

  /** `THERESHOLD = 5e9`: characters written before a file is rotated. */
  const Threshold: int := 5_000_000_000

  /** The 14 fields of the output schema, in schema order. */
  const Fields: seq<string> := [
    "user_id", "user_text", "timestamp", "content", "parent_id", "replyTo_id", "indentation",
    "page_id", "page_title", "type", "id", "rev_id", "conversation_id", "authors"]

  /** A JSON value as found in an input record. */
  datatype JsonValue = JNull | JBool(b: bool) | JInt(i: int) | JStr(s: string)

  /** An input record (a decoded JSON object). */
  type Record = map<string, JsonValue>

  /** A record projected onto the schema: each field with its value, None when the record lacks it. */
  type Row = seq<(string, Option<JsonValue>)>

  /** `<output>year-{year}/month-{month}/revisions-{index}.json` under the fixed output prefix. */
  datatype ShardPath = ShardPath(year: int, month: int, index: nat)

  // ---------------------------------------------------------------------
  // The grouping key

  /** The key `'{month}at{year}'` a record is grouped under. */
  function MonthYearKey(month: nat, year: nat): string {
    NatToString(month) + "at" + NatToString(year)
  }

  /** `month, year = [int(x) for x in key.split('at')]`; None is the ValueError of a malformed key. */
  function ParseMonthYear(key: string): Option<(int, int)> {
    var parts := Split(key, "at");
    if |parts| != 2 then None
    else
      match (ParseInt(parts[0]), ParseInt(parts[1]))
      case (Some(m), Some(y)) => Some((m, y))
      case _ => None
  }

  /** In `digits + sep + rest` the first separator is the one after the digits. */
  lemma FirstSeparatorAfterDigits(a: string, sep: string, b: string)
    requires AllDigits(a) && |sep| > 0 && !IsDigit(sep[0])
    ensures IndexOf(a + sep + b, sep) == Some(|a|)
  {
    var s := a + sep + b;
    assert s[|a|..|a| + |sep|] == sep;
    assert OccursAt(s, sep, |a|);
    forall j: nat | j < |a| && j + |sep| <= |s| ensures !OccursAt(s, sep, j) {
      assert s[j..j + |sep|][0] == s[j] == a[j];
    }
  }

  /** Parsing the key of a month and year gives back that month and year. */
  lemma KeyRoundTrip(month: nat, year: nat)
    ensures ParseMonthYear(MonthYearKey(month, year)) == Some((month, year))
  {
    var m, y := NatToString(month), NatToString(year);
    var key := m + "at" + y;
    assert Split(key, "at") == [m, y] by {
      FirstSeparatorAfterDigits(m, "at", y);
      assert key[|m| + 2..] == y;
      NatToStringHasNo(year, "at");
      SplitNoSep(y, "at");
      assert key[..|m|] == m;
      assert Split(key, "at") == [key[..|m|]] + Split(key[|m| + 2..], "at");
    }
    ParseIntToString(month);
    ParseIntToString(year);
  }

  // ---------------------------------------------------------------------
  // Schema projection

  /**
   * The record projected onto the schema, field by field: exactly the 14 schema fields, so an
   * input key outside the schema is dropped.
   */
  function Projected(x: Record): (row: Row)
    ensures |row| == 14
    ensures forall i :: 0 <= i < |row| ==> row[i].0 in Fields
  {
    seq(|Fields|, i requires 0 <= i < |Fields| =>
      (Fields[i], if Fields[i] in x then Some(x[Fields[i]]) else None))
  }

  /** `clean_schema`: fills the projection one schema field at a time. */
  method CleanSchema(x: Record) returns (row: Row)
    ensures |row| == |Fields|
    ensures forall i :: 0 <= i < |Fields| ==> row[i].0 == Fields[i]
    ensures forall i :: 0 <= i < |Fields| && Fields[i] in x ==> row[i].1 == Some(x[Fields[i]])
    ensures forall i :: 0 <= i < |Fields| && Fields[i] !in x ==> row[i].1 == None
  {
    row := [];
    var k := 0;
    while k < |Fields|
      invariant 0 <= k <= |Fields| && |row| == k
      invariant forall i :: 0 <= i < k ==> row[i] == (Fields[i], if Fields[i] in x then Some(x[Fields[i]]) else None)
    {
      var f := Fields[k];
      if f in x {
        row := row + [(f, Some(x[f]))];
      } else {
        row := row + [(f, None)];
      }
      k := k + 1;
    }
  }

  // ---------------------------------------------------------------------
  // The writer

  /** The serialised lines of a group, in input order, each followed by a newline. */
  function GroupLines(group: seq<Record>, dumps: Row -> string): seq<string> {
    if |group| == 0 then []
    else GroupLines(group[..|group| - 1], dumps) + [dumps(Projected(group[|group| - 1])) + "\n"]
  }

  /** The total length of the serialised records of a group (newlines not counted). */
  function GroupSize(group: seq<Record>, dumps: Row -> string): nat {
    if |group| == 0 then 0
    else GroupSize(group[..|group| - 1], dumps) + |dumps(Projected(group[|group| - 1]))|
  }

  /** The lines and size of one more record of a group. */
  lemma AppendLine(start: seq<string>, lines: seq<string>, line: string)
    ensures start + (lines + [line]) == (start + lines) + [line]
  {
  }

  lemma GroupStep(group: seq<Record>, k: nat, dumps: Row -> string)
    requires k < |group|
    ensures GroupLines(group[..k + 1], dumps) == GroupLines(group[..k], dumps) + [dumps(Projected(group[k])) + "\n"]
    ensures GroupSize(group[..k + 1], dumps) == GroupSize(group[..k], dumps) + |dumps(Projected(group[k]))|
  {
    assert group[..k + 1][..k] == group[..k];
  }

  /** `n` paths of one month all existing take up at least `n` entries of the file system. */
  lemma {:induction false} ProbedPathsBound(existing: set<ShardPath>, year: int, month: int, n: nat)
    requires forall i: nat :: i < n ==> ShardPath(year, month, i) in existing
    ensures n <= |existing|
  {
    if n > 0 {
      var p := ShardPath(year, month, n - 1);
      ProbedPathsBound(existing - {p}, year, month, n - 1);
    }
  }

  /** The `while FileSystems.exists(path)` probe: the first index whose path is free. */
  method FirstFreeIndex(existing: set<ShardPath>, year: int, month: int) returns (cnt: nat)
    ensures ShardPath(year, month, cnt) !in existing
    ensures forall i: nat :: i < cnt ==> ShardPath(year, month, i) in existing
  {
    cnt := 0;
    while ShardPath(year, month, cnt) in existing
      invariant forall i: nat :: i < cnt ==> ShardPath(year, month, i) in existing
      decreases |existing| - cnt
    {
      ProbedPathsBound(existing, year, month, cnt + 1);
      cnt := cnt + 1;
    }
  }

  /** The `WriteToStorage` transform and the file system it writes to. */
  class WriteToStorage {
    /** The file system: every existing path with the lines written to it. */
    var files: map<ShardPath, seq<string>>
    /** The paths closed so far, in closing order. */
    var closed: seq<ShardPath>
    var outputFile: Option<ShardPath>
    var path: Option<ShardPath>
    var month: Option<int>
    var year: Option<int>
    var sizecnts: nat
    var filecnts: nat

    /** An open file exists and is the current path of the current month and year. */
    ghost predicate Valid()
      reads this
    {
      outputFile.Some? ==>
        && outputFile.value in files
        && path == outputFile
        && month == Some(outputFile.value.month)
        && year == Some(outputFile.value.year)
    }

    /** A transform over a file system holding `existing`, after `start_bundle`. */
    constructor (existing: map<ShardPath, seq<string>>)
      ensures Valid()
      ensures files == existing && closed == []
      ensures outputFile == None && month == None && year == None && sizecnts == 0 && filecnts == 0
    {
      files := existing;
      closed := [];
      outputFile, path, month, year := None, None, None, None;
      sizecnts, filecnts := 0, 0;
    }

    /** `start_bundle`: no file open, no current month, counters at zero. */
    method StartBundle()
      modifies this
      ensures Valid()
      ensures files == old(files) && closed == old(closed) && path == old(path)
      ensures outputFile == None && month == None && year == None && sizecnts == 0 && filecnts == 0
    {
      outputFile, month, year := None, None, None;
      sizecnts, filecnts := 0, 0;
    }

    /** Closes the open file, if any. */
    method CloseOutput()
      requires Valid()
      modifies this
      ensures Valid()
      ensures outputFile == None
      ensures closed == old(if outputFile.Some? then closed + [outputFile.value] else closed)
      ensures files == old(files) && path == old(path) && month == old(month) && year == old(year)
      ensures sizecnts == old(sizecnts) && filecnts == old(filecnts)
    {
      if outputFile.Some? {
        closed := closed + [outputFile.value];
        outputFile := None;
      }
    }

    /** `process`: writes one group; false is the ValueError of a malformed key, raised before any change. */
    method Process(key: string, group: seq<Record>, dumps: Row -> string) returns (ok: bool)
      requires Valid()
      modifies this
      ensures Valid()
      ensures ok == ParseMonthYear(key).Some?
      ensures !ok ==> unchanged(this)
      ensures ok ==> var (m, y) := ParseMonthYear(key).value;
        && month == Some(m) && year == Some(y)
        && outputFile.Some? && outputFile.value.year == y && outputFile.value.month == m
        && (forall p :: p in old(files) && p != outputFile.value ==> p in files && files[p] == old(files)[p])
        && files.Keys == old(files).Keys + {outputFile.value}
        && var rotated := old(outputFile).None? || old(sizecnts) > Threshold
                          || old(month) != Some(m) || old(year) != Some(y);
           (rotated ==>
              && outputFile.value !in old(files)
              && (forall i: nat :: i < outputFile.value.index ==> ShardPath(y, m, i) in old(files))
              && closed == old(if outputFile.Some? then closed + [outputFile.value] else closed)
              && files[outputFile.value] == GroupLines(group, dumps)
              && sizecnts == GroupSize(group, dumps) && filecnts == |group|)
           && (!rotated ==>
              && outputFile == old(outputFile) && closed == old(closed)
              && files[outputFile.value] == old(files)[outputFile.value] + GroupLines(group, dumps)
              && sizecnts == old(sizecnts) + GroupSize(group, dumps)
              && filecnts == old(filecnts) + |group|)
    {
      var parsed := ParseMonthYear(key);
      if parsed.None? {
        return false;
      }
      ok := true;
      var (m, y) := parsed.value;
      if outputFile.Some? && sizecnts > Threshold {
        CloseOutput();
      }
      if outputFile.None? || year != Some(y) || month != Some(m) {
        OpenFor(m, y);
      }
      WriteGroup(group, dumps);
    }

    /**
     * The rotation step of `process`: the open file, if any, is closed, the counters are reset
     * and the first free path of the month is created and opened.
     */
    method OpenFor(m: int, y: int)
      requires Valid()
      modifies this
      ensures Valid() && month == Some(m) && year == Some(y)
      ensures outputFile.Some? && outputFile.value.year == y && outputFile.value.month == m
      ensures outputFile.value !in old(files)
      ensures forall i: nat :: i < outputFile.value.index ==> ShardPath(y, m, i) in old(files)
      ensures files == old(files)[outputFile.value := []]
      ensures closed == old(if outputFile.Some? then closed + [outputFile.value] else closed)
      ensures sizecnts == 0 && filecnts == 0
    {
      CloseOutput();
      sizecnts, filecnts := 0, 0;
      month, year := Some(m), Some(y);
      var cnt := FirstFreeIndex(files.Keys, y, m);
      var p := ShardPath(y, m, cnt);
      files := files[p := []];
      path, outputFile := Some(p), Some(p);
    }

    /** The `for output in val` loop: appends each projected, serialised record to the open file. */
    method WriteGroup(group: seq<Record>, dumps: Row -> string)
      requires Valid() && outputFile.Some?
      modifies this
      ensures Valid()
      ensures outputFile == old(outputFile) && closed == old(closed) && path == old(path)
      ensures month == old(month) && year == old(year)
      ensures files == old(files)[outputFile.value := old(files)[outputFile.value] + GroupLines(group, dumps)]
      ensures sizecnts == old(sizecnts) + GroupSize(group, dumps)
      ensures filecnts == old(filecnts) + |group|
    {
      var k := 0;
      var f := outputFile.value;
      ghost var start := files[f];
      assert GroupLines(group[..0], dumps) == [];
      assert start + GroupLines(group[..0], dumps) == start;
      assert files == old(files)[f := start + GroupLines(group[..0], dumps)];
      while k < |group|
        invariant 0 <= k <= |group|
        invariant outputFile == old(outputFile) && closed == old(closed) && path == old(path)
        invariant month == old(month) && year == old(year)
        invariant files == old(files)[f := start + GroupLines(group[..k], dumps)]
        invariant sizecnts == old(sizecnts) + GroupSize(group[..k], dumps)
        invariant filecnts == old(filecnts) + k
      {
        var row := CleanSchema(group[k]);
        assert row == Projected(group[k]);
        var tmp := dumps(row);
        GroupStep(group, k, dumps);
        AppendLine(start, GroupLines(group[..k], dumps), tmp + "\n");
        files := files[f := files[f] + [tmp + "\n"]];
        sizecnts := sizecnts + |tmp|;
        filecnts := filecnts + 1;
        k := k + 1;
      }
      assert group[..k] == group;
    }

    /** `finish_bundle`: the open file, if any, is closed; nothing else changes. */
    method FinishBundle()
      requires Valid()
      modifies this
      ensures Valid()
      ensures outputFile == None
      ensures closed == old(if outputFile.Some? then closed + [outputFile.value] else closed)
      ensures files == old(files) && sizecnts == old(sizecnts) && filecnts == old(filecnts)
    {
      CloseOutput();
    }
  }
}
