/** Text operations of JavaScript and SQLite that several components share: splitting and
    joining on one character, trimming, and the order in which SQL compares text. */
module Text {
  import opened Collections

  predicate Lacks(s: string, c: char) {
    c !in s
  }

  // ----- split and join

  /** `s.split(c)`: always at least one part. */
  function Split(s: string, c: char): (parts: seq<string>)
    ensures |parts| > 0 && forall i | 0 <= i < |parts| :: Lacks(parts[i], c)
  {
    if s == "" then [""]
    else
      var rest := Split(s[1..], c);
      if s[0] == c then [""] + rest else PushFirst(s[0], rest)
  }

  /** The parts, with one more character in front of the first. */
  function PushFirst(x: char, parts: seq<string>): (r: seq<string>)
    requires |parts| > 0
    ensures |r| == |parts| && r[0] == [x] + parts[0] && r[1..] == parts[1..]
  {
    [[x] + parts[0]] + parts[1..]
  }

  /** `parts.join(c)` */
  function Join(parts: seq<string>, c: char): string {
    if parts == [] then ""
    else if |parts| == 1 then parts[0]
    else parts[0] + [c] + Join(parts[1..], c)
  }

  lemma JoinPrefix(a: char, parts: seq<string>, c: char)
    requires |parts| > 0
    ensures Join(PushFirst(a, parts), c) == [a] + Join(parts, c)
  {
    if |parts| > 1 {
      assert Join(PushFirst(a, parts), c) == ([a] + parts[0]) + [c] + Join(parts[1..], c);
    }
  }

  lemma {:induction false} JoinOfSplit(s: string, c: char)
    ensures Join(Split(s, c), c) == s
  {
    if s != "" {
      JoinOfSplit(s[1..], c);
      JoinPrefix(s[0], Split(s[1..], c), c);
      assert s == [s[0]] + s[1..];
      assert ([""] + Split(s[1..], c))[1..] == Split(s[1..], c);
    }
  }

  /** A separator after a part that lacks it ends exactly that part. */
  lemma {:induction false} SplitHead(head: string, tail: string, c: char)
    requires Lacks(head, c)
    ensures Split(head + [c] + tail, c) == [head] + Split(tail, c)
  {
    var s := head + [c] + tail;
    if head == "" {
      assert s[1..] == tail;
    } else {
      SplitHead(head[1..], tail, c);
      assert s[1..] == head[1..] + [c] + tail;
      assert [s[0]] + head[1..] == head;
      assert ([head[1..]] + Split(tail, c))[1..] == Split(tail, c);
    }
  }

  lemma SplitCons(x: char, s: string, c: char)
    ensures Split([x] + s, c) == if x == c then [""] + Split(s, c) else PushFirst(x, Split(s, c))
  {
    assert ([x] + s)[1..] == s;
  }

  lemma {:induction false} SplitConcat(a: string, b: string, c: char)
    ensures Split(a + [c] + b, c) == Split(a, c) + Split(b, c)
    decreases |a|, 0
  {
    if a == "" {
      SplitHead("", b, c);
    } else {
      SplitConcatCons(a[0], a[1..], b, c);
      assert a == [a[0]] + a[1..];
    }
  }

  lemma {:induction false} SplitConcatCons(x: char, a: string, b: string, c: char)
    ensures Split([x] + a + [c] + b, c) == Split([x] + a, c) + Split(b, c)
    decreases |a|, 1
  {
    SplitConcat(a, b, c);
    SplitCons(x, a, c);
    SplitCons(x, a + [c] + b, c);
    Associative([x], a, [c] + b);
    Associative(a, [c], b);
    Associative([x] + a, [c], b);
    PushFirstConcat(x, Split(a, c), Split(b, c));
    Associative([""], Split(a, c), Split(b, c));
  }

  lemma PushFirstConcat(x: char, a: seq<string>, b: seq<string>)
    requires |a| > 0
    ensures PushFirst(x, a + b) == PushFirst(x, a) + b
  {
    assert (a + b)[1..] == a[1..] + b;
  }

  lemma {:induction false} SplitWhole(s: string, c: char)
    requires Lacks(s, c)
    ensures Split(s, c) == [s]
  {
    if s != "" {
      SplitWhole(s[1..], c);
      assert s == [s[0]] + s[1..];
    }
  }

  lemma {:induction false} SplitOfJoin(parts: seq<string>, c: char)
    requires |parts| > 0 && forall p | p in parts :: Lacks(p, c)
    ensures Split(Join(parts, c), c) == parts
  {
    if |parts| == 1 {
      SplitWhole(parts[0], c);
    } else {
      SplitOfJoin(parts[1..], c);
      SplitHead(parts[0], Join(parts[1..], c), c);
    }
  }

  lemma {:induction false} JoinLast(parts: seq<string>, last: string, c: char)
    requires |parts| > 0
    ensures Join(parts + [last], c) == Join(parts, c) + [c] + last
  {
    assert (parts + [last])[1..] == parts[1..] + [last];
    if |parts| > 1 {
      JoinLast(parts[1..], last, c);
      Associative(parts[0] + [c], Join(parts[1..], c), [c] + last);
      Associative(Join(parts[1..], c), [c], last);
      Associative(parts[0] + [c] + Join(parts[1..], c), [c], last);
    }
  }

  lemma {:induction false} JoinLacksIff(parts: seq<string>, c: char, sep: char)
    requires sep != c
    ensures Lacks(Join(parts, sep), c) <==> forall i | 0 <= i < |parts| :: Lacks(parts[i], c)
  {
    if |parts| > 1 {
      JoinLacksIff(parts[1..], c, sep);
      assert forall i | 1 <= i < |parts| :: parts[i] == parts[1..][i - 1];
    }
  }

  /** Splitting what was joined gives at least as many parts, and just as many only if no part
      has the separator. */
  lemma {:induction false} SplitCountsParts(parts: seq<string>, c: char)
    requires |parts| > 0
    ensures |Split(Join(parts, c), c)| >= |parts|
    ensures |Split(Join(parts, c), c)| == |parts| <==> forall i | 0 <= i < |parts| :: Lacks(parts[i], c)
  {
    SplitIsWholeIff(parts[0], c);
    if |parts| > 1 {
      SplitCountsParts(parts[1..], c);
      SplitConcat(parts[0], Join(parts[1..], c), c);
      assert forall i | 1 <= i < |parts| :: parts[i] == parts[1..][i - 1];
    }
  }

  lemma SplitIsWholeIff(s: string, c: char)
    ensures |Split(s, c)| == 1 <==> Lacks(s, c)
  {
    if Lacks(s, c) {
      SplitWhole(s, c);
    } else {
      JoinOfSplit(s, c);
    }
  }

  // ----- trim

  /** The white space and line terminators that `trim` removes. */
  predicate Blank(c: char) {
    var n := c as int;
    9 <= n <= 13 || n == 32 || n == 160 || n == 5760 || 8192 <= n <= 8202
    || n == 8232 || n == 8233 || n == 8239 || n == 8287 || n == 12288 || n == 65279
  }

  /** Section 12.2 of ECMA-262. */
  const WHITE_SPACE := "\t\U{000B}\U{000C} \U{00A0}\U{FEFF}\U{1680}\U{2000}\U{2001}\U{2002}\U{2003}\U{2004}\U{2005}\U{2006}\U{2007}\U{2008}\U{2009}\U{200A}\U{202F}\U{205F}\U{3000}"
  /** Section 12.3. */
  const LINE_TERMINATORS := "\n\r\U{2028}\U{2029}"

  lemma BlankIff(c: char)
    ensures Blank(c) <==> c in WHITE_SPACE || c in LINE_TERMINATORS
  {
    assert WHITE_SPACE[0] == '\t' && WHITE_SPACE[1] == '\U{000B}' && WHITE_SPACE[2] == '\U{000C}' && WHITE_SPACE[3] == ' ';
    assert WHITE_SPACE[4] == '\U{00A0}' && WHITE_SPACE[5] == '\U{FEFF}' && WHITE_SPACE[6] == '\U{1680}';
    assert WHITE_SPACE[7] == '\U{2000}' && WHITE_SPACE[8] == '\U{2001}' && WHITE_SPACE[9] == '\U{2002}' && WHITE_SPACE[10] == '\U{2003}';
    assert WHITE_SPACE[11] == '\U{2004}' && WHITE_SPACE[12] == '\U{2005}' && WHITE_SPACE[13] == '\U{2006}' && WHITE_SPACE[14] == '\U{2007}';
    assert WHITE_SPACE[15] == '\U{2008}' && WHITE_SPACE[16] == '\U{2009}' && WHITE_SPACE[17] == '\U{200A}' && WHITE_SPACE[18] == '\U{202F}';
    assert WHITE_SPACE[19] == '\U{205F}' && WHITE_SPACE[20] == '\U{3000}';
    assert LINE_TERMINATORS[0] == '\n' && LINE_TERMINATORS[1] == '\r';
    assert LINE_TERMINATORS[2] == '\U{2028}' && LINE_TERMINATORS[3] == '\U{2029}';
  }

  function TrimStart(s: string): (r: string)
    ensures |r| <= |s| && (r != "" ==> !Blank(r[0]))
  {
    if s != "" && Blank(s[0]) then TrimStart(s[1..]) else s
  }

  function TrimEnd(s: string): (r: string)
    ensures r <= s && (r != "" ==> !Blank(r[|r| - 1]))
  {
    if s != "" && Blank(s[|s| - 1]) then TrimEnd(s[..|s| - 1]) else s
  }

  function Trim(s: string): (r: string)
    ensures |r| <= |s| && Trimmed(r)
  {
    TrimEnd(TrimStart(s))
  }

  lemma TrimIsPart(s: string)
    ensures forall c | c in Trim(s) :: c in s
  {
    TrimStartIsPart(s);
  }

  lemma {:induction false} TrimStartIsPart(s: string)
    ensures forall c | c in TrimStart(s) :: c in s
  {
    if s != "" && Blank(s[0]) {
      TrimStartIsPart(s[1..]);
    }
  }

  /** Trimming removes blanks only. */
  lemma TrimKeepsSolid(s: string, c: char)
    requires !Blank(c) && c in s
    ensures c in Trim(s)
  {
    TrimStartKeepsSolid(s, c);
    TrimEndKeepsSolid(TrimStart(s), c);
  }

  lemma {:induction false} TrimStartKeepsSolid(s: string, c: char)
    requires !Blank(c) && c in s
    ensures c in TrimStart(s)
  {
    if Blank(s[0]) {
      assert s == [s[0]] + s[1..];
      TrimStartKeepsSolid(s[1..], c);
    }
  }

  lemma {:induction false} TrimEndKeepsSolid(s: string, c: char)
    requires !Blank(c) && c in s
    ensures c in TrimEnd(s)
  {
    if Blank(s[|s| - 1]) {
      assert s == s[..|s| - 1] + [s[|s| - 1]];
      TrimEndKeepsSolid(s[..|s| - 1], c);
    }
  }

  predicate EndsSolid(s: string) {
    s != "" && !Blank(s[|s| - 1])
  }

  /** Trimming the end stops at a character that is no blank. */
  lemma {:induction false} TrimEndAfter(s: string, t: string)
    requires EndsSolid(s)
    ensures TrimEnd(s + t) == s + TrimEnd(t)
  {
    if t == "" {
      assert s + t == s && s + TrimEnd(t) == s;
    } else {
      assert (s + t)[..|s + t| - 1] == s + t[..|t| - 1];
      if Blank(t[|t| - 1]) {
        TrimEndAfter(s, t[..|t| - 1]);
      }
    }
  }

  lemma {:induction false} TrimStartBefore(s: string, b: char)
    ensures TrimStart(s + [b]) == if TrimStart(s) == "" then TrimStart([b]) else TrimStart(s) + [b]
  {
    if s == "" {
      assert s + [b] == [b];
    } else {
      assert (s + [b])[1..] == s[1..] + [b];
      if Blank(s[0]) {
        TrimStartBefore(s[1..], b);
      }
    }
  }

  lemma {:induction false} TrimOfTrimEnd(s: string)
    ensures Trim(TrimEnd(s)) == Trim(s)
  {
    if s != "" && Blank(s[|s| - 1]) {
      var t, b := s[..|s| - 1], s[|s| - 1];
      assert s == t + [b];
      TrimOfTrimEnd(t);
      TrimStartBefore(t, b);
      if TrimStart(t) == "" {
        assert [b][1..] == "";
      } else {
        assert (TrimStart(t) + [b])[..|TrimStart(t)|] == TrimStart(t);
      }
    }
  }

  predicate Trimmed(s: string) {
    s == "" || (!Blank(s[0]) && !Blank(s[|s| - 1]))
  }

  lemma TrimKeeps(s: string)
    ensures Trim(s) == s <==> Trimmed(s)
  {
    assert Trimmed(Trim(s));
  }

  predicate AllBlank(s: string) {
    forall i | 0 <= i < |s| :: Blank(s[i])
  }

  ghost predicate CutOut(s: string, r: string) {
    exists a, b :: AllBlank(a) && AllBlank(b) && s == a + r + b
  }

  lemma {:induction false} TrimStartOfBlanks(a: string, x: string)
    requires AllBlank(a)
    ensures TrimStart(a + x) == TrimStart(x)
  {
    if a == "" {
      assert a + x == x;
    } else {
      assert (a + x)[1..] == a[1..] + x;
      TrimStartOfBlanks(a[1..], x);
    }
  }

  lemma {:induction false} TrimEndOfBlanks(b: string)
    requires AllBlank(b)
    ensures TrimEnd(b) == "" && TrimStart(b) == ""
  {
    if b != "" {
      TrimEndOfBlanks(b[..|b| - 1]);
      TrimStartOfBlanks(b, "");
      assert b + "" == b;
    }
  }

  lemma {:induction false} TrimStartCuts(s: string) returns (a: string)
    ensures AllBlank(a) && s == a + TrimStart(s)
  {
    if s != "" && Blank(s[0]) {
      a := TrimStartCuts(s[1..]);
      a := [s[0]] + a;
    } else {
      a := "";
    }
  }

  lemma {:induction false} TrimEndCuts(s: string) returns (b: string)
    ensures AllBlank(b) && s == TrimEnd(s) + b
  {
    if s != "" && Blank(s[|s| - 1]) {
      b := TrimEndCuts(s[..|s| - 1]);
      b := b + [s[|s| - 1]];
    } else {
      b := "";
    }
  }

  lemma TrimOfCut(a: string, r: string, b: string)
    requires Trimmed(r) && AllBlank(a) && AllBlank(b)
    ensures Trim(a + r + b) == r
  {
    Associative(a, r, b);
    TrimStartOfBlanks(a, r + b);
    TrimEndOfBlanks(b);
    if r == "" {
      assert r + b == b;
    } else {
      TrimEndAfter(r, b);
      assert r + "" == r;
    }
  }

  /** Trimming cuts blanks off both ends, and no others are left there. */
  lemma TrimIff(s: string, r: string)
    ensures r == Trim(s) <==> Trimmed(r) && CutOut(s, r)
  {
    if r == Trim(s) {
      var a := TrimStartCuts(s);
      var b := TrimEndCuts(TrimStart(s));
      Associative(a, r, b);
      assert s == a + r + b;
    }
    if Trimmed(r) && CutOut(s, r) {
      var a, b :| AllBlank(a) && AllBlank(b) && s == a + r + b;
      TrimOfCut(a, r, b);
    }
  }

  // ----- the order of text in SQL (binary collation)

  predicate LexLess(a: string, b: string) {
    b != "" && (a == "" || a[0] < b[0] || (a[0] == b[0] && LexLess(a[1..], b[1..])))
  }

  /** The texts first differ where the one ends, or has the smaller character. */
  ghost predicate FirstLess(a: string, b: string, n: nat) {
    n <= |a| && n < |b| && a[..n] == b[..n] && (n < |a| ==> a[n] < b[n])
  }

  lemma FirstLessHead(a: string, b: string, n: nat)
    requires FirstLess(a, b, n) && a != ""
    ensures if n == 0 then a[0] < b[0] else a[0] == b[0] && FirstLess(a[1..], b[1..], n - 1)
  {
    if n > 0 {
      assert a[0] == a[..n][0] == b[..n][0] == b[0];
      assert a[1..][..n - 1] == a[..n][1..] && b[1..][..n - 1] == b[..n][1..];
    }
  }

  lemma {:induction false} LexLessIff(a: string, b: string)
    ensures LexLess(a, b) <==> exists n: nat :: FirstLess(a, b, n)
  {
    if a != "" && b != "" {
      forall n: nat | FirstLess(a, b, n)
        ensures if n == 0 then a[0] < b[0] else a[0] == b[0] && FirstLess(a[1..], b[1..], n - 1)
      {
        FirstLessHead(a, b, n);
      }
      LexLessIff(a[1..], b[1..]);
      if a[0] == b[0] && LexLess(a[1..], b[1..]) {
        var n: nat :| FirstLess(a[1..], b[1..], n);
        assert a[..n + 1] == [a[0]] + a[1..][..n] && b[..n + 1] == [b[0]] + b[1..][..n];
        assert FirstLess(a, b, n + 1);
      }
    }
    if b != "" && (a == "" || a[0] < b[0]) {
      assert FirstLess(a, b, 0);
    }
  }

  lemma {:induction false} LexLessAfter(p: string, a: string, b: string)
    ensures LexLess(p + a, p + b) <==> LexLess(a, b)
  {
    if p == "" {
      assert p + a == a && p + b == b;
    } else {
      assert (p + a)[1..] == p[1..] + a && (p + b)[1..] == p[1..] + b;
      LexLessAfter(p[1..], a, b);
    }
  }

  /** Blocks of equal length decide the order before what follows them does. */
  lemma {:induction false} LexLessBlock(p: string, q: string, a: string, b: string)
    requires |p| == |q| && p != q
    ensures LexLess(p + a, q + b) <==> LexLess(p, q)
  {
    assert (p + a)[1..] == p[1..] + a && (q + b)[1..] == q[1..] + b;
    if p[0] == q[0] {
      assert p == [p[0]] + p[1..] && q == [q[0]] + q[1..];
      LexLessBlock(p[1..], q[1..], a, b);
    }
  }

  lemma {:induction false} LexLessIrreflexive(s: string)
    ensures !LexLess(s, s)
  {
    if s != "" {
      LexLessIrreflexive(s[1..]);
    }
  }

  lemma {:induction false} LexLessAsymmetric(a: string, b: string)
    requires LexLess(a, b)
    ensures !LexLess(b, a)
  {
    if a != "" && a[0] == b[0] {
      LexLessAsymmetric(a[1..], b[1..]);
    }
  }
}
