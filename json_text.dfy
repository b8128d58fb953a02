/**
  JSON text for the flat records the chaincodes store: one object whose members all have
  string values.

  `Stringify` writes the compact form a deterministic JSON writer produces (no whitespace,
  members in the order given, strings escaped the way `JSON.stringify` escapes them); `Parse`
  reads that form back, accepting the JSON whitespace and every JSON string escape, and fails
  on any other text. `ParseStringify` is the round trip.
 */
module JsonText {
  import opened Wrappers

  /** One member of a flat object: a name and its string value. */
  datatype Field = Field(name: string, value: string)

  // ---------------------------------------------------------------- writing

  function HexDigit(d: int): (c: char)
    requires 0 <= d < 16
  {
    if d < 10 then ('0' as int + d) as char else ('a' as int + d - 10) as char
  }

  /** A string character as it appears between the quotes of a JSON string literal. */
  function EscapeChar(c: char): (e: string) {
    if c == '"' then "\\\""
    else if c == '\\' then "\\\\"
    else if c == '\U{8}' then "\\b"
    else if c == '\t' then "\\t"
    else if c == '\n' then "\\n"
    else if c == '\U{C}' then "\\f"
    else if c == '\r' then "\\r"
    else if c < ' ' then "\\u00" + [HexDigit(c as int / 16), HexDigit(c as int % 16)]
    else [c]
  }

  function Escape(s: string): (e: string)
    decreases |s|
  {
    if s == [] then [] else EscapeChar(s[0]) + Escape(s[1..])
  }

  function Member(f: Field): string {
    "\"" + Escape(f.name) + "\"" + ":" + "\"" + Escape(f.value) + "\""
  }

  function Members(fs: seq<Field>): string
    decreases |fs|
  {
    if fs == [] then ""
    else if |fs| == 1 then Member(fs[0])
    else Member(fs[0]) + "," + Members(fs[1..])
  }

  /** The compact JSON text of a flat object; never empty, so it always counts as a stored value. */
  function Stringify(fs: seq<Field>): (r: string)
    ensures |r| >= 2 && r[0] == '{' && r[|r| - 1] == '}'
  {
    "{" + Members(fs) + "}"
  }

  // ---------------------------------------------------------------- reading

  predicate IsWs(c: char) {
    c == ' ' || c == '\t' || c == '\n' || c == '\r'
  }

  function SkipWs(s: string): (r: string)
    ensures |r| <= |s|
    ensures r == [] || !IsWs(r[0])
    decreases |s|
  {
    if |s| > 0 && IsWs(s[0]) then SkipWs(s[1..]) else s
  }

  function HexValue(c: char): (r: Option<int>)
    ensures r.Some? ==> 0 <= r.value < 16
  {
    if '0' <= c <= '9' then Some(c as int - '0' as int)
    else if 'a' <= c <= 'f' then Some(c as int - 'a' as int + 10)
    else if 'A' <= c <= 'F' then Some(c as int - 'A' as int + 10)
    else None
  }

  /**
    The character an escape sequence stands for, and how many characters of `t` (the text
    after the backslash) it takes. A `\u` escape naming a UTF-16 surrogate is not read.
   */
  function ParseEscape(t: string): (r: Option<(char, nat)>)
    ensures r.Some? ==> 1 <= r.value.1 <= |t|
  {
    if |t| == 0 then None
    else if t[0] == '"' then Some(('"', 1))
    else if t[0] == '\\' then Some(('\\', 1))
    else if t[0] == '/' then Some(('/', 1))
    else if t[0] == 'b' then Some(('\U{8}', 1))
    else if t[0] == 'f' then Some(('\U{C}', 1))
    else if t[0] == 'n' then Some(('\n', 1))
    else if t[0] == 'r' then Some(('\r', 1))
    else if t[0] == 't' then Some(('\t', 1))
    else if t[0] == 'u' && |t| >= 5 then
      match (HexValue(t[1]), HexValue(t[2]), HexValue(t[3]), HexValue(t[4]))
      case (Some(d1), Some(d2), Some(d3), Some(d4)) =>
        var v := d1 * 4096 + d2 * 256 + d3 * 16 + d4;
        if 0xD800 <= v <= 0xDFFF then None else Some((v as char, 5))
      case _ => None
    else None
  }

  /** One character of a string literal's body (not its closing quote) and its length in `s`. */
  function ParseChar(s: string): (r: Option<(char, nat)>)
    requires |s| > 0 && s[0] != '"'
    ensures r.Some? ==> 1 <= r.value.1 <= |s|
  {
    if s[0] == '\\' then
      match ParseEscape(s[1..])
      case Some((c, n)) => Some((c, n + 1))
      case None => None
    else if s[0] < ' ' then None
    else Some((s[0], 1))
  }

  /** The body of a string literal up to its closing quote, and the text after that quote. */
  function ParseStringBody(s: string): (r: Option<(string, string)>)
    ensures r.Some? ==> |r.value.1| < |s|
    decreases |s|
  {
    if |s| == 0 then None
    else if s[0] == '"' then Some(("", s[1..]))
    else
      match ParseChar(s)
      case None => None
      case Some((c, n)) =>
        match ParseStringBody(s[n..])
        case None => None
        case Some((body, rest)) => Some(([c] + body, rest))
  }

  /** `"name" : "value"`, and the text after it. */
  function ParseMember(s: string): (r: Option<(Field, string)>)
    ensures r.Some? ==> |r.value.1| < |s|
  {
    if |s| == 0 || s[0] != '"' then None
    else
      match ParseStringBody(s[1..])
      case None => None
      case Some((name, r1)) => ParseMemberValue(name, r1)
  }

  /** What follows a member's name: `: "value"`, and the text after it. */
  function ParseMemberValue(name: string, r1: string): (r: Option<(Field, string)>)
    ensures r.Some? ==> |r.value.1| < |r1|
  {
    var r2 := SkipWs(r1);
    if |r2| == 0 || r2[0] != ':' then None
    else
      var r3 := SkipWs(r2[1..]);
      if |r3| == 0 || r3[0] != '"' then None
      else
        match ParseStringBody(r3[1..])
        case None => None
        case Some((value, r4)) => Some((Field(name, value), r4))
  }

  /** One or more members separated by commas, then the closing brace; and the text after it. */
  function ParseMembers(s: string): (r: Option<(seq<Field>, string)>)
    ensures r.Some? ==> |r.value.0| > 0
    decreases |s|
  {
    match ParseMember(s)
    case None => None
    case Some((f, r1)) =>
      var r2 := SkipWs(r1);
      if |r2| == 0 then None
      else if r2[0] == '}' then Some(([f], r2[1..]))
      else if r2[0] == ',' then
        match ParseMembers(SkipWs(r2[1..]))
        case None => None
        case Some((fs, rest)) => Some(([f] + fs, rest))
      else None
  }

  /**
    The members of a flat JSON object, in text order; `None` for any other text. Only a text
    that, after leading whitespace, opens an object parses.
   */
  function Parse(s: string): (r: Option<seq<Field>>)
    ensures r.Some? ==> |SkipWs(s)| > 0 && SkipWs(s)[0] == '{'
  {
    var t := SkipWs(s);
    if |t| == 0 || t[0] != '{' then None
    else
      var u := SkipWs(t[1..]);
      if |u| > 0 && u[0] == '}' then
        if SkipWs(u[1..]) == [] then Some([]) else None
      else
        match ParseMembers(u)
        case None => None
        case Some((fs, rest)) => if SkipWs(rest) == [] then Some(fs) else None
  }

  // ---------------------------------------------------------------- round trip

  lemma HexDigitValue(d: int)
    requires 0 <= d < 16
    ensures HexValue(HexDigit(d)) == Some(d)
  {
  }

  lemma {:induction false} EscapeCharParses(c: char, t: string)
    ensures |EscapeChar(c)| > 0 && EscapeChar(c)[0] != '"'
    ensures ParseChar(EscapeChar(c) + t) == Some((c, |EscapeChar(c)|))
  {
    var e := EscapeChar(c);
    if c == '"' || c == '\\' || c == '\U{8}' || c == '\t' || c == '\n' || c == '\U{C}' || c == '\r' {
      assert (e + t)[1..] == [e[1]] + t;
    } else if c < ' ' {
      var d1, d2 := c as int / 16, c as int % 16;
      HexDigitValue(d1);
      HexDigitValue(d2);
      assert e == ['\\', 'u', '0', '0', HexDigit(d1), HexDigit(d2)];
      var u := (e + t)[1..];
      assert u[0] == 'u' && u[1] == '0' && u[2] == '0' && u[3] == HexDigit(d1) && u[4] == HexDigit(d2);
      assert 0 * 4096 + 0 * 256 + d1 * 16 + d2 == c as int;
    }
  }

  lemma Associative(a: string, b: string, c: string)
    ensures (a + b) + c == a + (b + c)
  {
  }

  lemma HeadThenTail(fs: seq<Field>)
    requires fs != []
    ensures [fs[0]] + fs[1..] == fs
  {
  }

  lemma DropHead(c: string, t: string)
    requires |c| == 1
    ensures (c + t)[1..] == t
  {
  }

  lemma {:induction false} EscapeParses(x: string, rest: string)
    ensures ParseStringBody(Escape(x) + ("\"" + rest)) == Some((x, rest))
    decreases |x|
  {
    if x == [] {
      assert Escape(x) + ("\"" + rest) == "\"" + rest;
    } else {
      var e := EscapeChar(x[0]);
      var tail := Escape(x[1..]) + ("\"" + rest);
      Associative(e, Escape(x[1..]), "\"" + rest);
      EscapeCharParses(x[0], tail);
      assert (e + tail)[|e|..] == tail;
      EscapeParses(x[1..], rest);
      assert [x[0]] + x[1..] == x;
    }
  }

  /** The text of a member followed by `rest`, nested to the right. */
  lemma MemberText(f: Field, rest: string)
    ensures Member(f) + rest
      == "\"" + (Escape(f.name) + ("\"" + (":" + ("\"" + (Escape(f.value) + ("\"" + rest))))))
  {
    var q, n, v := "\"", Escape(f.name), Escape(f.value);
    Associative(q + n + q + ":" + q + v, q, rest);
    Associative(q + n + q + ":" + q, v, q + rest);
    Associative(q + n + q + ":", q, v + (q + rest));
    Associative(q + n + q, ":", q + (v + (q + rest)));
    Associative(q + n, q, ":" + (q + (v + (q + rest))));
    Associative(q, n, q + (":" + (q + (v + (q + rest)))));
  }

  lemma MemberValueParses(name: string, value: string, rest: string)
    ensures ParseMemberValue(name, ":" + ("\"" + (Escape(value) + ("\"" + rest)))) == Some((Field(name, value), rest))
  {
    var r3 := "\"" + (Escape(value) + ("\"" + rest));
    var r1 := ":" + r3;
    assert SkipWs(r1) == r1;
    DropHead(":", r3);
    assert SkipWs(r3) == r3;
    DropHead("\"", Escape(value) + ("\"" + rest));
    EscapeParses(value, rest);
  }

  lemma MemberParses(f: Field, rest: string)
    ensures ParseMember(Member(f) + rest) == Some((f, rest))
  {
    var r1 := ":" + ("\"" + (Escape(f.value) + ("\"" + rest)));
    MemberText(f, rest);
    DropHead("\"", Escape(f.name) + ("\"" + r1));
    EscapeParses(f.name, r1);
    MemberValueParses(f.name, f.value, rest);
  }

  lemma MembersStartWithQuote(fs: seq<Field>)
    requires fs != []
    ensures |Members(fs)| > 0 && Members(fs)[0] == '"'
  {
  }

  /** After one member: a comma and the text of further members, or the closing brace. */
  lemma {:induction false} MemberThenParse(f: Field, after: string, fs: seq<Field>, rest: string)
    requires after != [] && (after[0] == '}' || after[0] == ',')
    requires after[0] == '}' ==> fs == [] && after[1..] == rest
    requires after[0] == ',' ==> ParseMembers(SkipWs(after[1..])) == Some((fs, rest))
    ensures ParseMembers(Member(f) + after) == Some(([f] + fs, rest))
  {
    MemberParses(f, after);
    assert SkipWs(after) == after;
    if after[0] == '}' {
      assert [f] + fs == [f];
    }
  }

  lemma LastMemberParses(f: Field, rest: string)
    ensures ParseMembers(Members([f]) + ("}" + rest)) == Some(([f], rest))
  {
    DropHead("}", rest);
    MemberThenParse(f, "}" + rest, [], rest);
    assert [f] + [] == [f];
  }

  lemma MembersText(fs: seq<Field>, rest: string)
    requires |fs| > 1
    ensures Members(fs) + rest == Member(fs[0]) + ("," + (Members(fs[1..]) + rest))
  {
    Associative(Member(fs[0]) + ",", Members(fs[1..]), rest);
    Associative(Member(fs[0]), ",", Members(fs[1..]) + rest);
  }

  lemma CommaThenParse(f: Field, next: string, fs: seq<Field>, rest: string)
    requires |next| > 0 && next[0] == '"' && ParseMembers(next) == Some((fs, rest))
    ensures ParseMembers(Member(f) + ("," + next)) == Some(([f] + fs, rest))
  {
    assert SkipWs(next) == next;
    DropHead(",", next);
    MemberThenParse(f, "," + next, fs, rest);
  }

  lemma MoreMembersParse(fs: seq<Field>, rest: string)
    requires |fs| > 1 && ParseMembers(Members(fs[1..]) + ("}" + rest)) == Some((fs[1..], rest))
    ensures ParseMembers(Members(fs) + ("}" + rest)) == Some((fs, rest))
  {
    MembersText(fs, "}" + rest);
    MembersStartWithQuote(fs[1..]);
    CommaThenParse(fs[0], Members(fs[1..]) + ("}" + rest), fs[1..], rest);
    HeadThenTail(fs);
  }

  lemma {:induction false} MembersParse(fs: seq<Field>, rest: string)
    requires fs != []
    ensures ParseMembers(Members(fs) + ("}" + rest)) == Some((fs, rest))
    decreases |fs|
  {
    if |fs| == 1 {
      LastMemberParses(fs[0], rest);
      assert [fs[0]] == fs;
    } else {
      MembersParse(fs[1..], rest);
      MoreMembersParse(fs, rest);
    }
  }

  /** Reading back the text of a flat object gives back exactly its members, in order. */
  lemma {:induction false} ParseStringify(fs: seq<Field>)
    ensures Parse(Stringify(fs)) == Some(fs)
  {
    var s := Stringify(fs);
    var t1 := Members(fs) + ("}" + "");
    Associative("{", Members(fs), "}");
    assert "}" + "" == "}";
    DropHead("{", t1);
    assert SkipWs(s) == s;
    if fs == [] {
      assert t1 == "}";
      assert SkipWs(t1) == t1;
    } else {
      MembersStartWithQuote(fs);
      assert SkipWs(t1) == t1;
      MembersParse(fs, "");
    }
  }
}
