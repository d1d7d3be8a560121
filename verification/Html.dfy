/** HTML escaping: `escapeHtml` of cli/src/commands/export.ts, five replacements in a row. */
module Html {

  /** `s.replace(/c/g, sub)` */
  function Replace(s: string, c: char, sub: string): string {
    if s == "" then "" else (if s[0] == c then sub else [s[0]]) + Replace(s[1..], c, sub)
  }

  /** One replacement after the other, in this order. */
  function ReplaceFive(text: string, amp: string, lt: string, gt: string, quot: string, apos: string): string {
    Replace(Replace(Replace(Replace(Replace(text, '&', amp), '<', lt), '>', gt), '"', quot), '\'', apos)
  }

  function EscapeHtml(text: string): string {
    ReplaceFive(text, "&amp;", "&lt;", "&gt;", "&quot;", "&#039;")
  }

  /** What one character becomes. */
  function Entity(c: char): string {
    match c
    case '&' => "&amp;"
    case '<' => "&lt;"
    case '>' => "&gt;"
    case '"' => "&quot;"
    case '\'' => "&#039;"
    case _ => [c]
  }

  function Substitute(text: string): string {
    if text == "" then "" else Entity(text[0]) + Substitute(text[1..])
  }

  lemma {:induction false} ReplaceConcat(a: string, b: string, c: char, sub: string)
    ensures Replace(a + b, c, sub) == Replace(a, c, sub) + Replace(b, c, sub)
  {
    if a == "" {
      assert a + b == b;
    } else {
      assert (a + b)[1..] == a[1..] + b;
      ReplaceConcat(a[1..], b, c, sub);
    }
  }

  lemma {:induction false} ReplaceAbsent(s: string, c: char, sub: string)
    requires c !in s
    ensures Replace(s, c, sub) == s
  {
    if s != "" {
      ReplaceAbsent(s[1..], c, sub);
    }
  }

  lemma ReplaceFiveConcat(a: string, b: string, amp: string, lt: string, gt: string, quot: string, apos: string)
    ensures ReplaceFive(a + b, amp, lt, gt, quot, apos) ==
            ReplaceFive(a, amp, lt, gt, quot, apos) + ReplaceFive(b, amp, lt, gt, quot, apos)
  {
    ReplaceConcat(a, b, '&', amp);
    var a1, b1 := Replace(a, '&', amp), Replace(b, '&', amp);
    ReplaceConcat(a1, b1, '<', lt);
    var a2, b2 := Replace(a1, '<', lt), Replace(b1, '<', lt);
    ReplaceConcat(a2, b2, '>', gt);
    var a3, b3 := Replace(a2, '>', gt), Replace(b2, '>', gt);
    ReplaceConcat(a3, b3, '"', quot);
    ReplaceConcat(Replace(a3, '"', quot), Replace(b3, '"', quot), '\'', apos);
  }

  lemma ReplaceStep(s: string, c: char, sub: string)
    requires |s| == 1 || c !in s
    ensures Replace(s, c, sub) == if |s| == 1 && s[0] == c then sub else s
  {
    if |s| == 1 {
      assert sub + "" == sub && s + "" == s;
    } else {
      ReplaceAbsent(s, c, sub);
    }
  }

  /** The replacements that come after a character's own leave alone what it became. */
  lemma ReplaceFiveOne(c: char, amp: string, lt: string, gt: string, quot: string, apos: string)
    requires '<' !in amp && '>' !in amp && '"' !in amp && '\'' !in amp
    requires '>' !in lt && '"' !in lt && '\'' !in lt && '"' !in gt && '\'' !in gt && '\'' !in quot
    ensures ReplaceFive([c], amp, lt, gt, quot, apos) ==
            if c == '&' then amp else if c == '<' then lt else if c == '>' then gt
            else if c == '"' then quot else if c == '\'' then apos else [c]
  {
    ReplaceStep([c], '&', amp);
    var s := if c == '&' then amp else [c];
    ReplaceStep(s, '<', lt);
    s := if c == '<' then lt else s;
    ReplaceStep(s, '>', gt);
    s := if c == '>' then gt else s;
    ReplaceStep(s, '"', quot);
    s := if c == '"' then quot else s;
    ReplaceStep(s, '\'', apos);
  }

  /** Because `&` goes first, the five replacements are one substitution of every character. */
  lemma {:induction false} EscapeIsSubstitution(text: string)
    ensures EscapeHtml(text) == Substitute(text)
  {
    if text != "" {
      assert text == [text[0]] + text[1..];
      ReplaceFiveConcat([text[0]], text[1..], "&amp;", "&lt;", "&gt;", "&quot;", "&#039;");
      ReplaceFiveOne(text[0], "&amp;", "&lt;", "&gt;", "&quot;", "&#039;");
      EscapeIsSubstitution(text[1..]);
    }
  }

  // ----- decoding

  /** Reads entities from left to right. */
  function Decode(t: string): string
    decreases |t|
  {
    if t == "" then ""
    else if "&amp;" <= t then "&" + Decode(t[5..])
    else if "&lt;" <= t then "<" + Decode(t[4..])
    else if "&gt;" <= t then ">" + Decode(t[4..])
    else if "&quot;" <= t then "\"" + Decode(t[6..])
    else if "&#039;" <= t then "'" + Decode(t[6..])
    else [t[0]] + Decode(t[1..])
  }

  lemma DecodeEntity(c: char, rest: string)
    ensures Decode(Entity(c) + rest) == [c] + Decode(rest)
  {
    var t := Entity(c) + rest;
    assert t[..|Entity(c)|] == Entity(c) && t[|Entity(c)|..] == rest;
    if c == '<' || c == '>' || c == '"' || c == '\'' || c == '&' {
      assert t[1] == Entity(c)[1];
      assert t[2] == Entity(c)[2];
    } else {
      assert t[0] == c;
    }
  }

  lemma {:induction false} DecodeOfSubstitute(text: string)
    ensures Decode(Substitute(text)) == text
  {
    if text != "" {
      DecodeEntity(text[0], Substitute(text[1..]));
      DecodeOfSubstitute(text[1..]);
    }
  }

  /** Decoding undoes escaping, for every text. */
  lemma DecodeOfEscape(text: string)
    ensures Decode(EscapeHtml(text)) == text
  {
    EscapeIsSubstitution(text);
    DecodeOfSubstitute(text);
  }

  lemma EscapeIsInjective(a: string, b: string)
    requires EscapeHtml(a) == EscapeHtml(b)
    ensures a == b
  {
    DecodeOfEscape(a);
    DecodeOfEscape(b);
  }

  /** No character that HTML gives a meaning is left, but the `&` of the entities. */
  lemma {:induction false} EscapedIsInert(text: string)
    ensures forall c | c in EscapeHtml(text) :: c != '<' && c != '>' && c != '"' && c != '\''
  {
    EscapeIsSubstitution(text);
    if text != "" {
      EscapeIsSubstitution(text[1..]);
      EscapedIsInert(text[1..]);
      assert forall c | c in Entity(text[0]) :: c != '<' && c != '>' && c != '"' && c != '\'';
    }
  }
}
