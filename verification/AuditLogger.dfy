/** The bounded activity log: core/src/audit/audit-logger.ts. The log is the text of its file;
    an entry is a line of JSON, which holds no newline and is not blank. */
module AuditLogger {
  import opened Collections
  import opened Optional
  import opened Text

  predicate IsEntry(line: string) {
    Lacks(line, '\n') && Trim(line) != ""
  }

  function NonBlank(lines: seq<string>): (r: seq<string>) {
    if lines == [] then []
    else (if Trim(lines[0]) != "" then [lines[0]] else []) + NonBlank(lines[1..])
  }

  /** `text.split('\n').filter((l) => l.trim())` */
  function Lines(text: string): seq<string> {
    NonBlank(Split(text, '\n'))
  }

  /** Where `slice(start)` of JavaScript begins: from the end when negative; -0 is 0. */
  function SliceStart(length: nat, start: int): (n: nat)
    ensures n <= length
  {
    if start < 0 then if length + start < 0 then 0 else length + start
    else if start > length then length else start
  }

  function Slice<T>(s: seq<T>, start: int): seq<T> {
    s[SliceStart(|s|, start)..]
  }

  function Keep(maxEntries: int): int {
    4 * maxEntries / 5
  }

  function Appended(text: string, line: string): string {
    text + line + "\n"
  }

  function Rotated(text: string, maxEntries: int): string {
    if |Lines(text)| > maxEntries then Join(Slice(Lines(text), -Keep(maxEntries)), '\n') + "\n" else text
  }

  // ----- the text as a list of entries

  predicate EndsLine(text: string) {
    text == "" || text[|text| - 1] == '\n'
  }

  lemma {:induction false} NonBlankConcat(a: seq<string>, b: seq<string>)
    ensures NonBlank(a + b) == NonBlank(a) + NonBlank(b)
  {
    if a == [] {
      assert a + b == b;
    } else {
      assert (a + b)[1..] == a[1..] + b;
      NonBlankConcat(a[1..], b);
      Associative(if Trim(a[0]) != "" then [a[0]] else [], NonBlank(a[1..]), NonBlank(b));
    }
  }

  lemma {:induction false} NonBlankOfEntries(lines: seq<string>)
    requires forall i | 0 <= i < |lines| :: Trim(lines[i]) != ""
    ensures NonBlank(lines) == lines
  {
    if lines != [] {
      NonBlankOfEntries(lines[1..]);
    }
  }

  lemma {:induction false} NonBlankAreEntries(lines: seq<string>)
    requires forall i | 0 <= i < |lines| :: Lacks(lines[i], '\n')
    ensures forall i | 0 <= i < |NonBlank(lines)| :: IsEntry(NonBlank(lines)[i])
  {
    if lines != [] {
      NonBlankAreEntries(lines[1..]);
    }
  }

  lemma LinesConcat(a: string, b: string)
    ensures Lines(a + ['\n'] + b) == Lines(a) + Lines(b)
  {
    SplitConcat(a, b, '\n');
    NonBlankConcat(Split(a, '\n'), Split(b, '\n'));
  }

  lemma LinesOfOne(line: string)
    requires Lacks(line, '\n')
    ensures Lines(line) == if Trim(line) != "" then [line] else []
  {
    SplitWhole(line, '\n');
    NonBlankOne(line);
  }

  lemma NonBlankOne(line: string)
    ensures NonBlank([line]) == if Trim(line) != "" then [line] else []
  {
    assert [line] + NonBlank([line][1..]) == [line];
  }

  lemma LinesOfEntry(line: string)
    requires IsEntry(line)
    ensures Lines(line + "\n") == [line]
  {
    LinesOfOne(line);
    LinesBeforeNewline(line);
  }

  lemma LinesOfAppended(text: string, line: string)
    requires EndsLine(text) && IsEntry(line)
    ensures Lines(Appended(text, line)) == Lines(text) + [line]
  {
    if text == "" {
      LinesOfEntry(line);
      LinesOfOne("");
      assert Appended(text, line) == line + "\n";
    } else {
      var before := text[..|text| - 1];
      LinesAfterNewline(before, line);
      assert text == before + "\n";
      assert Appended(text, line) == before + "\n" + (line + "\n");
    }
  }

  lemma LinesAfterNewline(before: string, line: string)
    requires IsEntry(line)
    ensures Lines(before + "\n" + (line + "\n")) == Lines(before + "\n") + [line]
  {
    LinesOfEntry(line);
    LinesOfTwo(before, line + "\n");
  }

  lemma LinesOfTwo(before: string, rest: string)
    ensures Lines(before + "\n" + rest) == Lines(before + "\n") + Lines(rest)
  {
    LinesConcat(before, rest);
    LinesBeforeNewline(before);
  }

  lemma LinesBeforeNewline(before: string)
    ensures Lines(before + "\n") == Lines(before)
  {
    LinesConcat(before, "");
    LinesOfOne("");
    assert before + ['\n'] + "" == before + "\n";
  }

  lemma LinesOfJoined(lines: seq<string>)
    requires forall i | 0 <= i < |lines| :: IsEntry(lines[i])
    ensures Lines(Join(lines, '\n') + "\n") == lines
  {
    LinesBeforeNewline(Join(lines, '\n'));
    LinesOfOne("");
    if lines != [] {
      SplitOfJoin(lines, '\n');
      NonBlankOfEntries(lines);
    }
  }

  /** Rotation keeps the newest entries, when there are too many. */
  lemma LinesOfRotated(text: string, maxEntries: int)
    ensures Lines(Rotated(text, maxEntries)) ==
            if |Lines(text)| > maxEntries then Slice(Lines(text), -Keep(maxEntries)) else Lines(text)
    ensures EndsLine(text) ==> EndsLine(Rotated(text, maxEntries))
  {
    NonBlankAreEntries(Split(text, '\n'));
    LinesOfJoined(Slice(Lines(text), -Keep(maxEntries)));
  }

  // ----- runs

  /** One call of `log`; a failed append writes nothing, a failed rotation leaves the file. */
  datatype Call = Call(line: string, appendFails: bool, rotateFails: bool)

  /** The file, if it exists, and the count of failed writes. */
  datatype Log = Log(file: Option<string>, failures: nat)

  function Logged(log: Log, call: Call, maxEntries: int): Log {
    if call.appendFails then log.(failures := log.failures + 1)
    else
      var text := Appended(log.file.GetOr(""), call.line);
      if call.rotateFails then Log(Some(text), log.failures + 1)
      else Log(Some(Rotated(text, maxEntries)), log.failures)
  }

  /** A run of one process, which may find the file of an earlier one. */
  function After(start: Log, calls: seq<Call>, maxEntries: int): Log {
    if calls == [] then start
    else Logged(After(start, calls[..|calls| - 1], maxEntries), calls[|calls| - 1], maxEntries)
  }

  const FRESH := Log(None, 0)

  function Entries(log: Log): seq<string> {
    Lines(log.file.GetOr(""))
  }

  /** The history: what the file held, and every entry whose append went through. */
  function Written(start: Log, calls: seq<Call>): seq<string> {
    if calls == [] then Entries(start)
    else Written(start, calls[..|calls| - 1]) + if calls[|calls| - 1].appendFails then [] else [calls[|calls| - 1].line]
  }

  function Failures(calls: seq<Call>): nat {
    if calls == [] then 0
    else Failures(calls[..|calls| - 1]) + if calls[|calls| - 1].appendFails || calls[|calls| - 1].rotateFails then 1 else 0
  }

  predicate Suffix(s: seq<string>, t: seq<string>) {
    |s| <= |t| && s == t[|t| - |s|..]
  }

  function Min(a: int, b: int): int {
    if a < b then a else b
  }

  /** What a call does to the entries. */
  function EntriesAfter(entries: seq<string>, call: Call, maxEntries: int): seq<string> {
    if call.appendFails then entries
    else
      var longer := entries + [call.line];
      if !call.rotateFails && |longer| > maxEntries then Slice(longer, -Keep(maxEntries)) else longer
  }

  lemma LoggedEntries(log: Log, call: Call, maxEntries: int)
    requires EndsLine(log.file.GetOr("")) && IsEntry(call.line)
    ensures Entries(Logged(log, call, maxEntries)) == EntriesAfter(Entries(log), call, maxEntries)
    ensures EndsLine(Logged(log, call, maxEntries).file.GetOr(""))
  {
    LinesOfAppended(log.file.GetOr(""), call.line);
    LinesOfRotated(Appended(log.file.GetOr(""), call.line), maxEntries);
  }

  predicate AllEntries(calls: seq<Call>) {
    forall i | 0 <= i < |calls| :: IsEntry(calls[i].line)
  }

  predicate NoRotationFails(calls: seq<Call>) {
    forall i | 0 <= i < |calls| :: !calls[i].rotateFails
  }

  predicate StartsWithin(start: Log, maxEntries: int) {
    start.file.None? || |Entries(start)| <= maxEntries
  }

  /** The last write was followed by a rotation that went through; or nothing was written, and the
      file was within its bound at the start. */
  predicate LastWriteRotated(start: Log, calls: seq<Call>, maxEntries: int) {
    if calls == [] then StartsWithin(start, maxEntries)
    else if calls[|calls| - 1].appendFails then LastWriteRotated(start, calls[..|calls| - 1], maxEntries)
    else !calls[|calls| - 1].rotateFails
  }

  /** The newest entries of the history: at least `Keep` of them, and no more than the bound
      if `bounded`. */
  predicate BoundedSuffix(entries: seq<string>, history: seq<string>, maxEntries: int, bounded: bool) {
    && Suffix(entries, history)
    && (maxEntries >= 2 ==> |entries| >= Min(|history|, Keep(maxEntries)))
    && (maxEntries >= 2 && bounded ==> |entries| <= maxEntries)
  }

  lemma SuffixOfSuffix(s: seq<string>, t: seq<string>, n: nat)
    requires Suffix(s, t) && n <= |s|
    ensures Suffix(s[n..], t)
  {
  }

  lemma SuffixNext(entries: seq<string>, history: seq<string>, call: Call, maxEntries: int, bounded: bool)
    requires BoundedSuffix(entries, history, maxEntries, bounded)
    ensures BoundedSuffix(EntriesAfter(entries, call, maxEntries), history + if call.appendFails then [] else [call.line],
                          maxEntries, if call.appendFails then bounded else !call.rotateFails)
  {
    if call.appendFails {
      assert history + [] == history;
    } else {
      var longer, all := entries + [call.line], history + [call.line];
      assert Suffix(longer, all);
      var start := if !call.rotateFails && |longer| > maxEntries then SliceStart(|longer|, -Keep(maxEntries)) else 0;
      assert EntriesAfter(entries, call, maxEntries) == longer[start..];
      SuffixOfSuffix(longer, all, start);
    }
  }

  /** After every run of calls on any file that ends a line, whatever fails: the file is a suffix
      of the history, at least the last `Keep` entries of it; each failure is counted; and when
      `maxEntries` is at least 2 and the last write was followed by a rotation that went through,
      the file is within its bound, whatever failed before and however long the file was. */
  lemma {:induction false} LogIsBoundedSuffix(start: Log, calls: seq<Call>, maxEntries: int)
    requires EndsLine(start.file.GetOr("")) && AllEntries(calls)
    ensures var log := After(start, calls, maxEntries);
            && BoundedSuffix(Entries(log), Written(start, calls), maxEntries, LastWriteRotated(start, calls, maxEntries))
            && log.failures == start.failures + Failures(calls) && EndsLine(log.file.GetOr(""))
  {
    if calls == [] {
      LinesOfOne("");
    } else {
      var before, call := calls[..|calls| - 1], calls[|calls| - 1];
      LogIsBoundedSuffix(start, before, maxEntries);
      LoggedEntries(After(start, before, maxEntries), call, maxEntries);
      SuffixNext(Entries(After(start, before, maxEntries)), Written(start, before), call, maxEntries,
                 LastWriteRotated(start, before, maxEntries));
    }
  }

  lemma AfterNext(start: Log, calls: seq<Call>, call: Call, maxEntries: int)
    requires EndsLine(start.file.GetOr("")) && AllEntries(calls) && IsEntry(call.line)
    ensures Entries(After(start, calls + [call], maxEntries)) ==
            EntriesAfter(Entries(After(start, calls, maxEntries)), call, maxEntries)
  {
    LogIsBoundedSuffix(start, calls, maxEntries);
    assert (calls + [call])[..|calls|] == calls;
    LoggedEntries(After(start, calls, maxEntries), call, maxEntries);
  }

  /** A rotation that goes through brings the file back within its bound. */
  lemma RotationRestoresBound(start: Log, calls: seq<Call>, call: Call, maxEntries: int)
    requires EndsLine(start.file.GetOr("")) && AllEntries(calls) && maxEntries >= 2
    requires IsEntry(call.line) && !call.appendFails && !call.rotateFails
    ensures |Entries(After(start, calls + [call], maxEntries))| <= maxEntries
  {
    AfterNext(start, calls, call, maxEntries);
  }

  /** A call that goes through appends its entry; only when the file would exceed its bound, it
      keeps the newest entries, four fifths of the bound rounded down. */
  lemma RotationLeavesFourFifths(start: Log, calls: seq<Call>, call: Call, maxEntries: int)
    requires EndsLine(start.file.GetOr("")) && AllEntries(calls) && maxEntries >= 2
    requires IsEntry(call.line) && !call.appendFails && !call.rotateFails
    ensures var was, now := Entries(After(start, calls, maxEntries)), Entries(After(start, calls + [call], maxEntries));
            && Suffix(now, was + [call.line])
            && if |was| < maxEntries then |now| == |was| + 1 else 5 * |now| <= 4 * maxEntries < 5 * |now| + 5
  {
    AfterNext(start, calls, call, maxEntries);
  }

  lemma {:induction false} NoFailureRotates(start: Log, calls: seq<Call>, maxEntries: int)
    requires StartsWithin(start, maxEntries) && NoRotationFails(calls)
    ensures LastWriteRotated(start, calls, maxEntries)
  {
    if calls != [] {
      NoFailureRotates(start, calls[..|calls| - 1], maxEntries);
    }
  }

  /** From any file within its bound, no run without failed rotations leads out of it. */
  ghost predicate AlwaysBounded(maxEntries: int) {
    forall start: Log, calls: seq<Call>
      | EndsLine(start.file.GetOr("")) && StartsWithin(start, maxEntries) && AllEntries(calls) && NoRotationFails(calls) ::
      |Entries(After(start, calls, maxEntries))| <= maxEntries
  }

  /** The bound holds over all runs, unless rotations fail, if and only if it is at least 2:
      below that, `Keep` is 0 and slicing from -0 keeps every line. */
  lemma BoundHoldsIff(maxEntries: int)
    ensures AlwaysBounded(maxEntries) <==> maxEntries >= 2
  {
    if maxEntries >= 2 {
      forall start: Log, calls: seq<Call>
        | EndsLine(start.file.GetOr("")) && StartsWithin(start, maxEntries) && AllEntries(calls) && NoRotationFails(calls)
        ensures |Entries(After(start, calls, maxEntries))| <= maxEntries
      {
        NoFailureRotates(start, calls, maxEntries);
        LogIsBoundedSuffix(start, calls, maxEntries);
      }
    } else {
      SmallBoundFails(maxEntries);
    }
  }

  lemma SmallBoundFails(maxEntries: int)
    requires maxEntries < 2
    ensures !AlwaysBounded(maxEntries)
  {
    if maxEntries < 0 {
      EmptyLog(maxEntries);
      BoundBroken([], maxEntries);
    } else {
      var call := Call("x", false, false);
      assert IsEntry(call.line);
      TwoCallsStay(call, maxEntries);
      BoundBroken([call] + [call], maxEntries);
    }
  }

  lemma BoundBroken(calls: seq<Call>, maxEntries: int)
    requires AllEntries(calls) && NoRotationFails(calls) && |Entries(After(FRESH, calls, maxEntries))| > maxEntries
    ensures !AlwaysBounded(maxEntries)
  {
  }

  lemma TwoCallsStay(call: Call, maxEntries: int)
    requires 0 <= maxEntries < 2 && IsEntry(call.line) && !call.appendFails && !call.rotateFails
    ensures |Entries(After(FRESH, [call] + [call], maxEntries))| == 2
  {
    EmptyLog(maxEntries);
    assert [] + [call] == [call];
    AfterNext(FRESH, [], call, maxEntries);
    AfterNext(FRESH, [call], call, maxEntries);
  }

  lemma EmptyLog(maxEntries: int)
    ensures Entries(After(FRESH, [], maxEntries)) == []
  {
    LinesOfOne("");
  }

  // ----- reading

  function Reverse(s: seq<string>): (r: seq<string>)
    ensures |r| == |s|
  {
    if s == [] then [] else Reverse(s[1..]) + [s[0]]
  }

  lemma {:induction false} ReverseAt(s: seq<string>, i: nat)
    requires i < |s|
    ensures Reverse(s)[i] == s[|s| - 1 - i]
  {
    if i < |s| - 1 {
      ReverseAt(s[1..], i);
    }
  }

  function Tail(log: Log, limit: int): seq<string> {
    Reverse(Slice(Entries(log), -limit))
  }

  /** For a positive limit, `tail` is the newest entries of the history, newest first, as many as
      the file still has. */
  lemma TailIsNewest(start: Log, calls: seq<Call>, maxEntries: int, limit: int)
    requires limit >= 1 && EndsLine(start.file.GetOr("")) && AllEntries(calls)
    ensures var log := After(start, calls, maxEntries);
            var t, w := Tail(log, limit), Written(start, calls);
            && |t| == Min(limit, |Entries(log)|) <= |w|
            && forall i | 0 <= i < |t| :: t[i] == w[|w| - 1 - i]
  {
    LogIsBoundedSuffix(start, calls, maxEntries);
    NewestOfSuffix(Entries(After(start, calls, maxEntries)), Written(start, calls), limit);
  }

  /** For any other limit, `tail` is everything but the first `-limit` entries, newest first. */
  lemma TailWithoutLimit(log: Log, limit: int)
    requires limit <= 0
    ensures var t, e := Tail(log, limit), Entries(log);
            |t| == |e| - Min(-limit, |e|) && forall i | 0 <= i < |t| :: t[i] == e[|e| - 1 - i]
  {
    var kept := Slice(Entries(log), -limit);
    forall i | 0 <= i < |kept| ensures Reverse(kept)[i] == kept[|kept| - 1 - i] {
      ReverseAt(kept, i);
    }
  }

  lemma NewestOfSuffix(entries: seq<string>, history: seq<string>, limit: int)
    requires limit >= 1 && Suffix(entries, history)
    ensures var t := Reverse(Slice(entries, -limit));
            && |t| == Min(limit, |entries|) <= |history|
            && forall i | 0 <= i < |t| :: t[i] == history[|history| - 1 - i]
  {
    var newest := Slice(entries, -limit);
    forall i | 0 <= i < |newest| ensures Reverse(newest)[i] == newest[|newest| - 1 - i] {
      ReverseAt(newest, i);
    }
  }

  // ----- the logger

  class ActivityLog {
    const maxEntries: int
    const failFast: bool
    var file: Option<string>
    var writeFailureCount: nat

    constructor (maxEntries: int, failFast: bool, found: Option<string>)
      ensures State() == Log(found, 0) && this.maxEntries == maxEntries && this.failFast == failFast
    {
      this.maxEntries, this.failFast, file, writeFailureCount := maxEntries, failFast, found, 0;
    }

    function State(): Log
      reads this
    {
      Log(file, writeFailureCount)
    }

    method RotateIfNeeded(fails: bool)
      modifies this
      ensures State() ==
              if fails then Log(old(file), old(writeFailureCount) + 1)
              else if old(file).None? then old(State())
              else Log(Some(Rotated(old(file).value, maxEntries)), old(writeFailureCount))
    {
      if fails {
        writeFailureCount := writeFailureCount + 1;
        return;
      }
      if file.None? {
        return;
      }
      var lines := Lines(file.value);
      if |lines| > maxEntries {
        var kept := Slice(lines, -Keep(maxEntries));
        file := Some(Join(kept, '\n') + "\n");
      }
    }

    /** Whether the caller sees the failure. */
    method Append(call: Call) returns (thrown: bool)
      modifies this
      ensures State() == Logged(old(State()), call, maxEntries)
      ensures thrown == (call.appendFails && failFast)
    {
      if call.appendFails {
        writeFailureCount := writeFailureCount + 1;
        return failFast;
      }
      file := Some(file.GetOr("") + call.line + "\n");
      RotateIfNeeded(call.rotateFails);
      return false;
    }

    method ReadTail(limit: int) returns (entries: seq<string>)
      ensures entries == Tail(State(), limit)
    {
      if file.None? {
        LinesOfOne("");
        return [];
      }
      entries := Reverse(Slice(Lines(file.value), -limit));
    }
  }
}
