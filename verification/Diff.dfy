/** Comparing the metadata of two versions of a record: the comparison loop and the front-matter
    parser of cli/src/commands/diff.ts. */
module Diff {
  import opened Collections
  import opened Optional
  import opened Text

  // ----- parsed metadata: an object with its own keys in the order of Object.keys

  predicate DistinctKeys(keys: seq<string>) {
    forall i, j | 0 <= i < j < |keys| :: keys[i] != keys[j]
  }

  predicate AllDigits(key: string) {
    key != "" && forall i | 0 <= i < |key| :: '0' <= key[i] <= '9'
  }

  function Number(digits: string): nat
    requires forall i | 0 <= i < |digits| :: '0' <= digits[i] <= '9'
  {
    if digits == "" then 0
    else 10 * Number(digits[..|digits| - 1]) + (digits[|digits| - 1] as int - '0' as int)
  }

  /** An array index in the sense of section 6.1.7 of ECMA-262. */
  predicate IsIndex(key: string) {
    AllDigits(key) && (key == "0" || key[0] != '0') && Number(key) < 0xFFFF_FFFF
  }

  function Decimal(n: nat): string {
    (if n < 10 then "" else Decimal(n / 10)) + [('0' as int + n % 10) as char]
  }

  lemma NumberPush(front: string, d: nat)
    requires d < 10 && forall i | 0 <= i < |front| :: '0' <= front[i] <= '9'
    ensures var s := front + [('0' as int + d) as char]; AllDigits(s) && Number(s) == 10 * Number(front) + d
  {
    var s := front + [('0' as int + d) as char];
    assert s[..|s| - 1] == front;
  }

  lemma {:induction false} NumberOfDecimal(n: nat)
    ensures AllDigits(Decimal(n)) && Number(Decimal(n)) == n
    ensures n > 0 ==> Decimal(n)[0] != '0'
  {
    if n >= 10 {
      NumberOfDecimal(n / 10);
      NumberPush(Decimal(n / 10), n % 10);
    } else {
      NumberPush("", n);
      assert Number("") == 0;
    }
  }

  lemma DecimalPush(f: nat, d: nat)
    requires f > 0 && d < 10
    ensures Decimal(10 * f + d) == Decimal(f) + [('0' as int + d) as char]
  {
    assert (10 * f + d) / 10 == f && (10 * f + d) % 10 == d;
  }

  lemma {:induction false} LeadingDigit(s: string)
    requires AllDigits(s) && s[0] != '0'
    ensures Number(s) > 0
  {
    var front := s[..|s| - 1];
    if front != "" {
      assert front[0] == s[0];
      LeadingDigit(front);
    } else {
      assert Number(front) == 0;
    }
  }

  lemma DecimalOfPush(s: string, front: string, d: nat)
    requires AllDigits(front) && front[0] != '0' && d < 10 && Decimal(Number(front)) == front
    requires AllDigits(s) && s == front + [('0' as int + d) as char]
    ensures Decimal(Number(s)) == s
  {
    LeadingDigit(front);
    NumberPush(front, d);
    DecimalPush(Number(front), d);
  }

  lemma OneDigit(c: char)
    requires '0' <= c <= '9'
    ensures Decimal(Number([c])) == [c]
  {
    assert [c][..0] == "" && Number([c]) == c as int - '0' as int;
  }

  lemma SplitLast(key: string) returns (front: string, d: nat)
    requires AllDigits(key)
    ensures d < 10 && key == front + [('0' as int + d) as char] && front == key[..|key| - 1]
    ensures front != "" ==> AllDigits(front) && front[0] == key[0]
  {
    front, d := key[..|key| - 1], key[|key| - 1] as int - '0' as int;
  }

  lemma {:induction false} DecimalOfNumber(key: string)
    requires AllDigits(key) && (key == "0" || key[0] != '0')
    ensures Decimal(Number(key)) == key
  {
    if |key| == 1 {
      assert key == [key[0]];
      OneDigit(key[0]);
    } else {
      var front, d := SplitLast(key);
      DecimalOfNumber(front);
      DecimalOfPush(key, front, d);
    }
  }

  /** The indices are the decimal forms of the numbers below 2^32 - 1. */
  lemma IndexIff(key: string)
    ensures IsIndex(key) <==> exists n: nat :: n < 4_294_967_295 && key == Decimal(n)
  {
    if IsIndex(key) {
      DecimalOfNumber(key);
      assert key == Decimal(Number(key));
    }
    if n: nat :| n < 4_294_967_295 && key == Decimal(n) {
      NumberOfDecimal(n);
      assert n == 0 ==> Decimal(0) == "0";
    }
  }

  /** Section 10.1.11: indices come first and ascend; all other keys keep the order in which they
      were set. */
  predicate Before(key: string, other: string) {
    IsIndex(key) && (IsIndex(other) ==> Number(key) < Number(other))
  }

  predicate InOrder(keys: seq<string>) {
    forall i, j | 0 <= i < j < |keys| :: !Before(keys[j], keys[i])
  }

  function Place(keys: seq<string>, key: string): (r: seq<string>)
    ensures forall k :: k in r <==> k in keys || k == key
  {
    if keys == [] then [key]
    else if Before(key, keys[0]) then [key] + keys
    else
      assert keys == [keys[0]] + keys[1..];
      [keys[0]] + Place(keys[1..], key)
  }

  lemma {:induction false} PlaceKeeps(keys: seq<string>, key: string)
    requires DistinctKeys(keys) && InOrder(keys) && key !in keys
    ensures DistinctKeys(Place(keys, key)) && InOrder(Place(keys, key))
  {
    if keys != [] && !Before(key, keys[0]) {
      var rest := Place(keys[1..], key);
      PlaceKeeps(keys[1..], key);
      assert keys[0] !in keys[1..];
      forall i | 0 <= i < |rest| ensures rest[i] != keys[0] && !Before(rest[i], keys[0]) {
        assert rest[i] in rest;
      }
    }
  }

  datatype Metadata = Metadata(keys: seq<string>, values: map<string, string>) {
    ghost predicate Valid() {
      DistinctKeys(keys) && InOrder(keys) && forall k :: k in keys <==> k in values
    }

    function Put(key: string, value: string): (m: Metadata)
      ensures m.values == values[key := value]
    {
      Metadata(if key in values then keys else Place(keys, key), values[key := value])
    }

    lemma PutIsValid(key: string, value: string)
      requires Valid()
      ensures Put(key, value).Valid()
    {
      if key !in values {
        PlaceKeeps(keys, key);
      }
    }
  }

  const EMPTY := Metadata([], map[])

  /** Of two keys, the later is an index only if the earlier is a smaller one. */
  lemma IndicesAscend(m: Metadata, i: nat, j: nat)
    requires m.Valid() && i < j < |m.keys| && IsIndex(m.keys[j])
    ensures IsIndex(m.keys[i]) && Number(m.keys[i]) < Number(m.keys[j])
  {
    assert !Before(m.keys[j], m.keys[i]);
    DecimalOfNumber(m.keys[i]);
    DecimalOfNumber(m.keys[j]);
  }

  /** A field that is set again stays where it is; a new name that is no index comes last. */
  lemma NamesInOrderSet(m: Metadata, key: string, value: string)
    ensures key in m.values ==> m.Put(key, value).keys == m.keys
    ensures key !in m.values && !IsIndex(key) ==> m.Put(key, value).keys == m.keys + [key]
  {
    if !IsIndex(key) {
      PlacedLast(m.keys, key);
    }
  }

  lemma {:induction false} PlacedLast(keys: seq<string>, key: string)
    requires !IsIndex(key)
    ensures Place(keys, key) == keys + [key]
  {
    if keys != [] {
      PlacedLast(keys[1..], key);
      assert keys == [keys[0]] + keys[1..];
    }
  }

  /** The name whose assignment goes to an accessor, which ignores strings (section B.2.2.1 of
      ECMA-262). */
  const ACCESSOR := "__proto__"

  // ----- the front matter

  /** The text before the first "\n---". */
  function UntilClose(s: string): Option<string> {
    if "\n---" <= s then Some("")
    else if s == "" then None
    else
      var rest := UntilClose(s[1..]);
      if rest.None? then None else Some([s[0]] + rest.value)
  }

  /** The group of the expression /^---\n([\s\S]*?)\n---/ */
  function FrontMatter(content: string): Option<string> {
    if "---\n" <= content then UntilClose(content[4..]) else None
  }

  ghost predicate ClosesAt(s: string, n: nat) {
    n <= |s| && "\n---" <= s[n..]
  }

  /** The shortest text that a closing fence follows. */
  lemma {:induction false} UntilCloseIff(s: string, front: string)
    ensures UntilClose(s) == Some(front) <==>
            front <= s && ClosesAt(s, |front|) && forall n: nat | n < |front| :: !ClosesAt(s, n)
  {
    assert s[0..] == s;
    if "\n---" <= s {
      assert ClosesAt(s, 0);
    } else if s != "" && front != "" {
      var rest := s[1..];
      UntilCloseIff(rest, front[1..]);
      assert front == [front[0]] + front[1..] && s == [s[0]] + rest;
      forall n: nat | n < |s| ensures ClosesAt(s, n + 1) <==> ClosesAt(rest, n) {
        assert s[n + 1..] == rest[n..];
      }
      CloseShifts(s, front);
    }
  }

  lemma CloseShifts(s: string, front: string)
    requires s != "" && front != "" && !ClosesAt(s, 0)
    requires forall n: nat | n < |s| :: ClosesAt(s, n + 1) <==> ClosesAt(s[1..], n)
    ensures (forall n: nat | n < |front| :: !ClosesAt(s, n)) <==> (forall n: nat | n < |front| - 1 :: !ClosesAt(s[1..], n))
    ensures front <= s ==> (ClosesAt(s, |front|) <==> ClosesAt(s[1..], |front| - 1))
  {
    if forall n: nat | n < |front| - 1 :: !ClosesAt(s[1..], n) {
      forall n: nat | n < |front| ensures !ClosesAt(s, n) {
        if n > 0 && n <= |s| {
          assert ClosesAt(s, n - 1 + 1) <==> ClosesAt(s[1..], n - 1);
        }
      }
    }
    if forall n: nat | n < |front| :: !ClosesAt(s, n) {
      forall n: nat | n < |front| - 1 ensures !ClosesAt(s[1..], n) {
        if n < |s| {
          assert ClosesAt(s, n + 1) <==> ClosesAt(s[1..], n);
        }
      }
    }
    if front <= s {
      assert ClosesAt(s, |front| - 1 + 1) <==> ClosesAt(s[1..], |front| - 1);
    }
  }

  /** Front matter is exactly what stands between a fence at the very start and the first line
      after it that starts with one; without both there is no metadata. */
  lemma FrontMatterIff(content: string, front: string)
    ensures FrontMatter(content) == Some(front) <==>
            && "---\n" <= content && front <= content[4..]
            && ClosesAt(content[4..], |front|) && forall n: nat | n < |front| :: !ClosesAt(content[4..], n)
    ensures FrontMatter(content).None? ==> Parsed(content) == EMPTY
  {
    if "---\n" <= content {
      UntilCloseIff(content[4..], front);
    }
  }

  function ParseLine(m: Metadata, line: string): Metadata {
    var parts := Split(line, ':');
    if parts[0] != "" && |parts| > 1 && Trim(parts[0]) != ACCESSOR
    then m.Put(Trim(parts[0]), Trim(Join(parts[1..], ':'))) else m
  }

  function ParseLines(lines: seq<string>): (m: Metadata)
    ensures m.Valid() && ACCESSOR !in m.values
  {
    if lines == [] then EMPTY
    else
      var m, line := ParseLines(lines[..|lines| - 1]), lines[|lines| - 1];
      var parts := Split(line, ':');
      m.PutIsValid(Trim(parts[0]), Trim(Join(parts[1..], ':')));
      ParseLine(m, line)
  }

  function Parsed(content: string): (m: Metadata)
    ensures m.Valid() && ACCESSOR !in m.values
  {
    var front := FrontMatter(content);
    if front.None? then EMPTY else ParseLines(Split(front.value, '\n'))
  }

  method ParseRecordMetadata(content: string) returns (metadata: Metadata)
    ensures metadata == Parsed(content)
  {
    metadata := EMPTY;
    var front := FrontMatter(content);
    if front.Some? {
      var lines := Split(front.value, '\n');
      assert ParseLines(lines[..0]) == EMPTY;
      for i := 0 to |lines|
        invariant metadata == ParseLines(lines[..i])
      {
        var parts := Split(lines[i], ':');
        assert lines[..i + 1][..i] == lines[..i];
        if parts[0] != "" && |parts| > 1 {
          var value := Trim(Join(parts[1..], ':'));
          if Trim(parts[0]) != ACCESSOR {
            metadata := metadata.Put(Trim(parts[0]), value);
          }
        }
      }
      assert lines[..|lines|] == lines;
    }
  }

  /** A line sets the text before its first colon to all the text after it, both trimmed, colons
      in the value included; a line without a colon, or that starts with one, or whose key is
      `__proto__`, sets nothing. */
  lemma LineSetsField(m: Metadata, key: string, value: string)
    requires Lacks(key, ':')
    ensures ParseLine(m, key + ":" + value) ==
            if key == "" || Trim(key) == "__proto__" then m else m.Put(Trim(key), Trim(value))
    ensures ParseLine(m, key) == m
  {
    SplitHead(key, value, ':');
    JoinOfSplit(value, ':');
    assert key + ":" + value == key + [':'] + value;
    assert ([key] + Split(value, ':'))[1..] == Split(value, ':');
    SplitWhole(key, ':');
  }

  lemma {:induction false} UntilCloseSkips(line: string, rest: string)
    requires Lacks(line, '\n')
    ensures UntilClose(line + rest) == if UntilClose(rest).None? then None else Some(line + UntilClose(rest).value)
  {
    if line == "" {
      assert line + rest == rest;
      assert UntilClose(rest).Some? ==> line + UntilClose(rest).value == UntilClose(rest).value;
    } else {
      assert (line + rest)[0] == line[0] != '\n';
      assert (line + rest)[1..] == line[1..] + rest;
      UntilCloseSkips(line[1..], rest);
      assert UntilClose(rest).Some? ==> [line[0]] + (line[1..] + UntilClose(rest).value) == line + UntilClose(rest).value;
    }
  }

  lemma {:induction false} UntilCloseOfLines(lines: seq<string>, tail: string)
    requires |lines| > 0 && forall i | 0 <= i < |lines| :: Lacks(lines[i], '\n')
    requires forall i | 1 <= i < |lines| :: !("---" <= lines[i])
    ensures UntilClose(Join(lines, '\n') + ("\n---" + tail)) == Some(Join(lines, '\n'))
  {
    var close := "\n---" + tail;
    if |lines| == 1 {
      UntilCloseSkips(lines[0], close);
      assert "\n---" <= close;
      assert lines[0] + "" == lines[0];
    } else {
      var more := Join(lines[1..], '\n');
      UntilCloseOfLines(lines[1..], tail);
      JoinStarts(lines[1..], close);
      NotAClose(lines[1], more + close);
      UntilCloseOfMore(lines[0], more, close);
    }
  }

  lemma UntilCloseOfMore(line: string, more: string, close: string)
    requires Lacks(line, '\n') && !("\n---" <= ['\n'] + (more + close)) && UntilClose(more + close) == Some(more)
    ensures UntilClose(line + ['\n'] + more + close) == Some(line + ['\n'] + more)
  {
    UntilCloseSkipsNewline(more + close);
    UntilCloseSkips(line, ['\n'] + (more + close));
    Associative(line, ['\n'], more);
    Associative(line + ['\n'], more, close);
    Associative(line, ['\n'], more + close);
  }

  lemma JoinStarts(lines: seq<string>, close: string)
    requires |lines| > 0 && close != "" && close[0] == '\n'
    ensures var s := Join(lines, '\n') + close; lines[0] <= s && |lines[0]| < |s| && s[|lines[0]|] == '\n'
  {
  }

  lemma UntilCloseSkipsNewline(rest: string)
    requires !("\n---" <= ['\n'] + rest)
    ensures UntilClose(['\n'] + rest) == if UntilClose(rest).None? then None else Some(['\n'] + UntilClose(rest).value)
  {
    assert (['\n'] + rest)[1..] == rest;
  }

  lemma NotAClose(line: string, rest: string)
    requires Lacks(line, '\n') && !("---" <= line)
    requires line <= rest && |line| < |rest| && rest[|line|] == '\n'
    ensures !("\n---" <= ['\n'] + rest)
  {
    var s := ['\n'] + rest;
    assert |s| >= 4 ==> s[1] == rest[0] && s[2] == rest[1] && s[3] == rest[2];
  }

  /** The lines between the fences, and nothing after the closing one, make the metadata. */
  lemma DocumentParses(lines: seq<string>, body: string)
    requires |lines| > 0 && forall i | 0 <= i < |lines| :: Lacks(lines[i], '\n')
    requires forall i | 1 <= i < |lines| :: !("---" <= lines[i])
    ensures Parsed("---\n" + (Join(lines, '\n') + ("\n---" + body))) == ParseLines(lines)
  {
    UntilCloseOfLines(lines, body);
    FrontMatterAfterFence(Join(lines, '\n') + ("\n---" + body));
    SplitOfJoin(lines, '\n');
  }

  lemma FrontMatterAfterFence(rest: string)
    ensures FrontMatter("---\n" + rest) == UntilClose(rest)
  {
    assert ("---\n" + rest)[4..] == rest;
  }

  // ----- the change list

  /** What `metadata[key]` finds: a text, or something inherited under that name. */
  datatype Value = Text(text: string) | Inherited(name: string)

  /** `proto` holds the names that every object inherits (section 20.1.3 of ECMA-262), among them
      "constructor" and "toString". */
  function Lookup(m: map<string, string>, proto: set<string>, key: string): Option<Value> {
    if key in m then Some(Text(m[key])) else if key in proto then Some(Inherited(key)) else None
  }

  datatype Change =
    | Added(field: string, newValue: Value)
    | Removed(field: string, oldValue: Value)
    | Modified(field: string, oldValue: Value, newValue: Value)

  function ChangeOf(key: string, proto: set<string>, a: map<string, string>, b: map<string, string>): seq<Change> {
    var was, now := Lookup(a, proto, key), Lookup(b, proto, key);
    if was == now then []
    else if was.None? then [Added(key, now.value)]
    else if now.None? then [Removed(key, was.value)]
    else [Modified(key, was.value, now.value)]
  }

  function ChangesOf(keys: seq<string>, proto: set<string>, a: map<string, string>, b: map<string, string>): seq<Change> {
    if keys == [] then [] else ChangeOf(keys[0], proto, a, b) + ChangesOf(keys[1..], proto, a, b)
  }

  /** The keys of both, each once, in the order of a Set. */
  function AllKeys(a: Metadata, b: Metadata): seq<string> {
    a.keys + Only(b.keys, a.values.Keys)
  }

  function Only(keys: seq<string>, without: set<string>): (r: seq<string>)
    ensures forall k :: k in r <==> k in keys && k !in without
  {
    if keys == [] then []
    else
      assert keys == [keys[0]] + keys[1..];
      (if keys[0] in without then [] else [keys[0]]) + Only(keys[1..], without)
  }

  function Changes(proto: set<string>, a: Metadata, b: Metadata): seq<Change> {
    ChangesOf(AllKeys(a, b), proto, a.values, b.values)
  }

  method CompareMetadata(proto: set<string>, a: Metadata, b: Metadata) returns (changes: seq<Change>)
    ensures changes == Changes(proto, a, b)
  {
    var allKeys := AllKeys(a, b);
    changes := [];
    assert allKeys[..0] == [];
    for i := 0 to |allKeys|
      invariant changes == ChangesOf(allKeys[..i], proto, a.values, b.values)
    {
      var key := allKeys[i];
      ChangesOfNext(allKeys, i, proto, a.values, b.values);
      var value1 := Lookup(a.values, proto, key);
      var value2 := Lookup(b.values, proto, key);
      if value1 != value2 {
        if value1.None? {
          changes := changes + [Added(key, value2.value)];
        } else if value2.None? {
          changes := changes + [Removed(key, value1.value)];
        } else {
          changes := changes + [Modified(key, value1.value, value2.value)];
        }
      }
    }
    assert allKeys[..|allKeys|] == allKeys;
  }

  lemma {:induction false} ChangesConcat(x: seq<string>, y: seq<string>, proto: set<string>, a: map<string, string>, b: map<string, string>)
    ensures ChangesOf(x + y, proto, a, b) == ChangesOf(x, proto, a, b) + ChangesOf(y, proto, a, b)
  {
    if x == [] {
      assert x + y == y;
    } else {
      assert (x + y)[1..] == x[1..] + y;
      ChangesConcat(x[1..], y, proto, a, b);
    }
  }

  lemma ChangesOfNext(keys: seq<string>, i: nat, proto: set<string>, a: map<string, string>, b: map<string, string>)
    requires i < |keys|
    ensures ChangesOf(keys[..i + 1], proto, a, b) == ChangesOf(keys[..i], proto, a, b) + ChangeOf(keys[i], proto, a, b)
  {
    ChangesConcat(keys[..i], [keys[i]], proto, a, b);
    assert keys[..i + 1] == keys[..i] + [keys[i]];
    assert ChangesOf([keys[i]], proto, a, b) == ChangeOf(keys[i], proto, a, b) + [];
  }

  // ----- the change list as a patch

  /** An object's own properties. */
  type Object = map<string, Value>

  function Own(m: map<string, string>): Object {
    map k | k in m :: Text(m[k])
  }

  function At(m: Object, key: string): Option<Value> {
    if key in m then Some(m[key]) else None
  }

  function ApplyOne(c: Change, m: Object): Object {
    if c.Removed? then m - {c.field} else m[c.field := c.newValue]
  }

  function Apply(changes: seq<Change>, m: Object): Object {
    if changes == [] then m else Apply(changes[1..], ApplyOne(changes[0], m))
  }

  function Inverse(c: Change): Change {
    match c
    case Added(f, now) => Removed(f, now)
    case Removed(f, was) => Added(f, was)
    case Modified(f, was, now) => Modified(f, now, was)
  }

  function Inverses(changes: seq<Change>): seq<Change> {
    seq(|changes|, i requires 0 <= i < |changes| => Inverse(changes[i]))
  }

  lemma {:induction false} ApplyConcat(x: seq<Change>, y: seq<Change>, m: Object)
    ensures Apply(x + y, m) == Apply(y, Apply(x, m))
  {
    if x == [] {
      assert x + y == y;
    } else {
      assert (x + y)[1..] == x[1..] + y;
      ApplyConcat(x[1..], y, ApplyOne(x[0], m));
    }
  }

  /** Patching an object that is `a` on the keys sets each of them to what looking it up in `b`
      finds, and keeps the rest. */
  lemma {:induction false} PatchKeys(keys: seq<string>, proto: set<string>, a: map<string, string>, b: map<string, string>, m: Object, k: string)
    requires DistinctKeys(keys) && forall x | x in keys :: (x in a || x in b) && At(m, x) == At(Own(a), x)
    ensures At(Apply(ChangesOf(keys, proto, a, b), m), k) == if k in keys then Lookup(b, proto, k) else At(m, k)
  {
    if keys != [] {
      var key, rest := keys[0], keys[1..];
      var step := ChangeOf(key, proto, a, b);
      assert keys == [key] + rest && key !in rest;
      forall x | x in rest ensures At(Apply(step, m), x) == At(Own(a), x) {
        PatchOne(key, proto, a, b, m, x);
      }
      ApplyConcat(step, ChangesOf(rest, proto, a, b), m);
      PatchKeys(rest, proto, a, b, Apply(step, m), k);
      PatchOne(key, proto, a, b, m, k);
    }
  }

  lemma PatchOne(key: string, proto: set<string>, a: map<string, string>, b: map<string, string>, m: Object, k: string)
    requires (key in a || key in b) && At(m, key) == At(Own(a), key)
    ensures At(Apply(ChangeOf(key, proto, a, b), m), k) == if k == key then Lookup(b, proto, key) else At(m, k)
  {
    var step := ChangeOf(key, proto, a, b);
    if step != [] {
      assert step[1..] == [];
      assert Apply(step, m) == ApplyOne(step[0], m);
    }
  }

  lemma AllKeysAreAll(a: Metadata, b: Metadata)
    requires a.Valid() && b.Valid()
    ensures DistinctKeys(AllKeys(a, b))
    ensures forall k :: k in AllKeys(a, b) <==> k in a.values || k in b.values
  {
    OnlyDistinct(b.keys, a.values.Keys);
    var only := Only(b.keys, a.values.Keys);
    forall i, j | 0 <= i < |a.keys| && 0 <= j < |only| ensures a.keys[i] != only[j] {
      assert a.keys[i] in a.keys && only[j] in only;
    }
  }

  lemma {:induction false} OnlyDistinct(keys: seq<string>, without: set<string>)
    requires DistinctKeys(keys)
    ensures DistinctKeys(Only(keys, without))
  {
    if keys != [] {
      OnlyDistinct(keys[1..], without);
      assert keys[0] !in keys[1..];
    }
  }

  lemma {:induction false} InversesSwap(keys: seq<string>, proto: set<string>, a: map<string, string>, b: map<string, string>)
    ensures Inverses(ChangesOf(keys, proto, a, b)) == ChangesOf(keys, proto, b, a)
  {
    if keys != [] {
      InversesSwap(keys[1..], proto, a, b);
      InversesConcat(ChangeOf(keys[0], proto, a, b), ChangesOf(keys[1..], proto, a, b));
      assert Inverses(ChangeOf(keys[0], proto, a, b)) == ChangeOf(keys[0], proto, b, a);
    }
  }

  lemma InversesConcat(x: seq<Change>, y: seq<Change>)
    ensures Inverses(x + y) == Inverses(x) + Inverses(y)
  {
  }

  lemma {:induction false} ChangedFieldsAreKeys(keys: seq<string>, proto: set<string>, a: map<string, string>, b: map<string, string>)
    requires DistinctKeys(keys)
    ensures var cs := ChangesOf(keys, proto, a, b);
            && (forall c | c in cs :: c.field in keys && ChangeOf(c.field, proto, a, b) == [c])
            && (forall i, j | 0 <= i < j < |cs| :: cs[i].field != cs[j].field)
  {
    if keys != [] {
      ChangedFieldsAreKeys(keys[1..], proto, a, b);
      assert keys == [keys[0]] + keys[1..] && keys[0] !in keys[1..];
      var rest := ChangesOf(keys[1..], proto, a, b);
      assert forall i | 0 <= i < |rest| :: rest[i] in rest;
    }
  }

  ghost predicate Precedes(keys: seq<string>, f: string, g: string) {
    exists m, n :: 0 <= m < n < |keys| && keys[m] == f && keys[n] == g
  }

  lemma PrecedesAfter(keys: seq<string>, rest: seq<string>, f: string, g: string)
    requires keys != [] && rest == keys[1..] && Precedes(rest, f, g)
    ensures Precedes(keys, f, g)
  {
    var m, n :| 0 <= m < n < |rest| && rest[m] == f && rest[n] == g;
    assert keys[m + 1] == f && keys[n + 1] == g;
  }

  lemma FirstPrecedes(keys: seq<string>, rest: seq<string>, g: string)
    requires keys != [] && rest == keys[1..] && g in rest
    ensures Precedes(keys, keys[0], g)
  {
    var n :| 0 <= n < |rest| && rest[n] == g;
    assert keys[n + 1] == g;
  }

  lemma FieldsComeFrom(keys: seq<string>, proto: set<string>, a: map<string, string>, b: map<string, string>)
    requires DistinctKeys(keys)
    ensures var cs := ChangesOf(keys, proto, a, b); forall n | 0 <= n < |cs| :: cs[n].field in keys
  {
    var cs := ChangesOf(keys, proto, a, b);
    ChangedFieldsAreKeys(keys, proto, a, b);
    forall n | 0 <= n < |cs| ensures cs[n].field in keys {
      assert cs[n] in cs;
    }
  }

  lemma FieldsNext(keys: seq<string>, cs: seq<Change>, step: seq<Change>, tail: seq<Change>, i: nat, j: nat)
    requires keys != [] && cs == step + tail && i < j < |cs| && |step| <= 1 && (step != [] ==> step[0].field == keys[0])
    requires forall n | 0 <= n < |tail| :: tail[n].field in keys[1..]
    requires i >= |step| ==> Precedes(keys[1..], tail[i - |step|].field, tail[j - |step|].field)
    ensures Precedes(keys, cs[i].field, cs[j].field)
  {
    if i >= |step| {
      PrecedesAfter(keys, keys[1..], tail[i - |step|].field, tail[j - |step|].field);
    } else {
      FirstPrecedes(keys, keys[1..], tail[j - |step|].field);
    }
  }

  lemma ChangesUnfold(keys: seq<string>, proto: set<string>, a: map<string, string>, b: map<string, string>, cs: seq<Change>)
      returns (step: seq<Change>, tail: seq<Change>)
    requires keys != [] && DistinctKeys(keys) && cs == ChangesOf(keys, proto, a, b)
    ensures tail == ChangesOf(keys[1..], proto, a, b) && cs == step + tail && DistinctKeys(keys[1..])
    ensures |step| <= 1 && (step != [] ==> step[0].field == keys[0])
    ensures forall n | 0 <= n < |tail| :: tail[n].field in keys[1..]
  {
    step, tail := ChangeOf(keys[0], proto, a, b), ChangesOf(keys[1..], proto, a, b);
    FieldsComeFrom(keys[1..], proto, a, b);
  }

  lemma {:induction false} FieldsInOrder(keys: seq<string>, proto: set<string>, a: map<string, string>, b: map<string, string>,
      cs: seq<Change>, i: nat, j: nat)
    requires DistinctKeys(keys) && cs == ChangesOf(keys, proto, a, b) && i < j < |cs|
    ensures Precedes(keys, cs[i].field, cs[j].field)
    decreases |keys|
  {
    var step, tail := ChangesUnfold(keys, proto, a, b, cs);
    if i >= |step| {
      FieldsInOrder(keys[1..], proto, a, b, tail, i - |step|, j - |step|);
    }
    FieldsNext(keys, cs, step, tail, i, j);
  }

  lemma PrecedesInConcat(x: seq<string>, y: seq<string>, f: string, g: string)
    requires Precedes(x + y, f, g) && forall k | k in y :: k !in x
    ensures if g in x then Precedes(x, f, g) else f in x || Precedes(y, f, g)
  {
    var m, n :| 0 <= m < n < |x + y| && (x + y)[m] == f && (x + y)[n] == g;
    if n < |x| {
      assert x[m] == f && x[n] == g;
    } else {
      assert y[n - |x|] == g && g in y;
      if m < |x| {
        assert x[m] == f;
      } else {
        assert y[m - |x|] == f;
      }
    }
  }

  lemma {:induction false} OnlyKeepsOrder(keys: seq<string>, without: set<string>, f: string, g: string)
    requires Precedes(Only(keys, without), f, g)
    ensures Precedes(keys, f, g)
  {
    var only, rest := Only(keys, without), Only(keys[1..], without);
    var m, n :| 0 <= m < n < |only| && only[m] == f && only[n] == g;
    if keys[0] in without {
      OnlyKeepsOrder(keys[1..], without, f, g);
      PrecedesAfter(keys, keys[1..], f, g);
    } else if m == 0 {
      assert rest[n - 1] == g && g in rest;
      FirstPrecedes(keys, keys[1..], g);
    } else {
      assert rest[m - 1] == f && rest[n - 1] == g;
      OnlyKeepsOrder(keys[1..], without, f, g);
      PrecedesAfter(keys, keys[1..], f, g);
    }
  }

  /** Changes come in the order of the first version's keys, then of those that only the second
      has. */
  lemma ChangesInOrder(proto: set<string>, a: Metadata, b: Metadata, i: nat, j: nat)
    requires a.Valid() && b.Valid() && i < j < |Changes(proto, a, b)|
    ensures var f, g := Changes(proto, a, b)[i].field, Changes(proto, a, b)[j].field;
            if g in a.values then Precedes(a.keys, f, g) else f in a.values || Precedes(b.keys, f, g)
  {
    var f, g := Changes(proto, a, b)[i].field, Changes(proto, a, b)[j].field;
    var only := Only(b.keys, a.values.Keys);
    AllKeysAreAll(a, b);
    FieldsInOrder(AllKeys(a, b), proto, a.values, b.values, Changes(proto, a, b), i, j);
    PrecedesInConcat(a.keys, only, f, g);
    if Precedes(only, f, g) {
      OnlyKeepsOrder(b.keys, a.values.Keys, f, g);
    }
  }

  /** No key that only the first map has is a name that objects inherit: looking it up in the
      second would find something after all. */
  predicate LeavesNoTrace(proto: set<string>, a: map<string, string>, b: map<string, string>) {
    forall k | k in a && k !in b :: k !in proto
  }

  lemma PatchesAllIff(keys: seq<string>, proto: set<string>, a: map<string, string>, b: map<string, string>)
    requires DistinctKeys(keys) && forall k :: k in keys <==> k in a || k in b
    ensures Apply(ChangesOf(keys, proto, a, b), Own(a)) == Own(b) <==> LeavesNoTrace(proto, a, b)
    ensures ChangesOf(keys, proto, a, b) == [] ==> a == b
  {
    var p := Apply(ChangesOf(keys, proto, a, b), Own(a));
    forall k ensures At(p, k) == if k in keys then Lookup(b, proto, k) else None {
      PatchKeys(keys, proto, a, b, Own(a), k);
    }
    SameObjectIff(p, Own(b));
    if ChangesOf(keys, proto, a, b) == [] {
      forall k ensures (k in a <==> k in b) && (k in a ==> a[k] == b[k]) {
        assert At(p, k) == At(Own(a), k);
      }
      assert a.Keys == b.Keys;
    }
  }

  lemma SameObjectIff(m: Object, n: Object)
    ensures m == n <==> forall k :: At(m, k) == At(n, k)
  {
    if forall k :: At(m, k) == At(n, k) {
      forall k ensures (k in m <==> k in n) && (k in m ==> m[k] == n[k]) {
        assert At(m, k) == At(n, k);
      }
      assert m.Keys == n.Keys;
    }
  }

  lemma {:induction false} NothingChanged(keys: seq<string>, proto: set<string>, a: map<string, string>)
    ensures ChangesOf(keys, proto, a, a) == []
  {
    if keys != [] {
      NothingChanged(keys[1..], proto, a);
    }
  }

  /** The change list names no field twice and is empty exactly when the maps are equal. It is an
      exact patch from the first map to the second if and only if no key of the first map alone
      is an inherited name; its inverses are an exact patch from the second to the first if and
      only if no key of the second map alone is one. */
  lemma ChangesAreAPatchIff(proto: set<string>, a: Metadata, b: Metadata)
    requires a.Valid() && b.Valid()
    ensures var cs := Changes(proto, a, b);
            && (forall i, j | 0 <= i < j < |cs| :: cs[i].field != cs[j].field)
            && (cs == [] <==> a.values == b.values)
            && (Apply(cs, Own(a.values)) == Own(b.values) <==> LeavesNoTrace(proto, a.values, b.values))
            && (Apply(Inverses(cs), Own(b.values)) == Own(a.values) <==> LeavesNoTrace(proto, b.values, a.values))
  {
    var keys := AllKeys(a, b);
    AllKeysAreAll(a, b);
    PatchesAllIff(keys, proto, a.values, b.values);
    InversesSwap(keys, proto, a.values, b.values);
    PatchesAllIff(keys, proto, b.values, a.values);
    ChangedFieldsAreKeys(keys, proto, a.values, b.values);
    if a.values == b.values {
      NothingChanged(keys, proto, a.values);
    }
  }

  /** The comparison of two documents patches what one parses to into what the other does, and
      back, if and only if no field that only one of them sets has an inherited name. */
  lemma DocumentsPatchIff(proto: set<string>, content1: string, content2: string)
    ensures var a, b := Parsed(content1), Parsed(content2);
            && (Apply(Changes(proto, a, b), Own(a.values)) == Own(b.values) <==> LeavesNoTrace(proto, a.values, b.values))
            && (Apply(Inverses(Changes(proto, a, b)), Own(b.values)) == Own(a.values) <==>
                  LeavesNoTrace(proto, b.values, a.values))
  {
    ChangesAreAPatchIff(proto, Parsed(content1), Parsed(content2));
  }

  lemma OneFieldDocument(key: string, value: string)
    requires Lacks(key, ':') && Lacks(key, '\n') && Lacks(value, '\n') && key != ""
    requires Trimmed(key) && Trimmed(value) && key != ACCESSOR
    ensures Parsed("---\n" + (key + ":" + value + "\n---")) == Metadata([key], map[key := value])
  {
    var lines := [key + ":" + value];
    DocumentParses(lines, "");
    assert Join(lines, '\n') + ("\n---" + "") == key + ":" + value + "\n---";
    assert lines[..0] == [];
    LineSetsField(EMPTY, key, value);
    TrimKeeps(key);
    TrimKeeps(value);
  }

  /** A record that gains the field `constructor`: the change is reported as a modification of
      what every object inherits under that name, and undoing it leaves that behind as a field. */
  lemma ConstructorIsModified(proto: set<string>)
    requires "constructor" in proto
    ensures var b := Parsed("---\n" + ("constructor" + ":" + "ACME" + "\n---"));
            var cs := Changes(proto, Parsed(""), b);
            && cs == [Modified("constructor", Inherited("constructor"), Text("ACME"))]
            && Apply(Inverses(cs), Own(b.values)) == map["constructor" := Inherited("constructor")]
  {
    OneFieldDocument("constructor", "ACME");
    OneKeyChange("constructor", "ACME", proto);
  }

  lemma OneKeyChange(key: string, value: string, proto: set<string>)
    requires key in proto
    ensures var b := Metadata([key], map[key := value]);
            var cs := Changes(proto, EMPTY, b);
            && cs == [Modified(key, Inherited(key), Text(value))]
            && Apply(Inverses(cs), Own(b.values)) == map[key := Inherited(key)]
  {
    var b := Metadata([key], map[key := value]);
    assert EMPTY.values.Keys == {} && Only([key], {}) == [key];
    assert AllKeys(EMPTY, b) == [] + [key] == [key];
    var step := ChangeOf(key, proto, map[], b.values);
    assert ChangesOf([key], proto, map[], b.values) == step + [];
    var back := [Modified(key, Text(value), Inherited(key))];
    assert Inverses(step) == back;
    assert back[1..] == [] && Apply(back, Own(b.values)) == ApplyOne(back[0], Own(b.values));
  }
}
