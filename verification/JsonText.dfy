/**
 `JSON.stringify` without indentation (section 25.5.2 of ECMA-262; the text follows section 2 of
 RFC 8259), and the proof that the text of a value determines the value. Every writer takes the text
 that follows, so that the texts nest the way the values do.
 */
module JsonText {
  import opened CanonicalJson

  function HexDigit(n: nat): char
    requires n < 16
  {
    if n < 10 then '0' + n as char else 'a' + (n - 10) as char
  }

  /** One character of a quoted string, followed by `rest`. */
  function WriteChar(c: char, rest: string): string {
    if c == '\"' then ['\\', '\"'] + rest
    else if c == '\\' then ['\\', '\\'] + rest
    else if c as int == 8 then ['\\', 'b'] + rest
    else if c as int == 9 then ['\\', 't'] + rest
    else if c as int == 10 then ['\\', 'n'] + rest
    else if c as int == 12 then ['\\', 'f'] + rest
    else if c as int == 13 then ['\\', 'r'] + rest
    else if c as int < 32 then
      ['\\', 'u', '0', '0', HexDigit(c as int / 16), HexDigit(c as int % 16)] + rest
    else [c] + rest
  }

  function WriteChars(s: string, rest: string): string {
    if s == [] then ['\"'] + rest else WriteChar(s[0], WriteChars(s[1..], rest))
  }

  function Write(v: Json, rest: string): string
    decreases v, 2
  {
    match v
    case Null => ['n', 'u', 'l', 'l'] + rest
    case Bool(b) => if b then ['t', 'r', 'u', 'e'] + rest else ['f', 'a', 'l', 's', 'e'] + rest
    case Num(Finite(t)) => t + rest
    case Num(NonFinite(_)) => ['n', 'u', 'l', 'l'] + rest
    case Str(s) => ['\"'] + WriteChars(s, rest)
    case Arr(items) =>
      ['['] + (if items == [] then [']'] + rest else Write(items[0], WriteItems(items[1..], rest)))
    case Obj(ms) =>
      ['{'] + (if ms == [] then ['}'] + rest else WriteMember(ms[0], WriteMembers(ms[1..], rest)))
  }

  /** The remaining items of an array and the closing bracket. */
  function WriteItems(items: seq<Json>, rest: string): string
    decreases items, 0
  {
    if items == [] then [']'] + rest
    else [','] + Write(items[0], WriteItems(items[1..], rest))
  }

  function WriteMember(m: Member, rest: string): string
    decreases m, 3
  {
    ['\"'] + WriteChars(m.key, [':'] + Write(m.value, rest))
  }

  function WriteMembers(ms: seq<Member>, rest: string): string
    decreases ms, 0
  {
    if ms == [] then ['}'] + rest
    else [','] + WriteMember(ms[0], WriteMembers(ms[1..], rest))
  }

  function Stringify(v: Json): string { Write(v, "") }

  // ---------------------------------------------------------------- quoted strings

  lemma Drop(s: string, x: string, y: string)
    requires s + x == s + y
    ensures x == y
  {
    assert x == (s + x)[|s|..] == (s + y)[|s|..] == y;
  }

  /** Escapes form a prefix code. */
  lemma WriteCharInjective(c: char, d: char, x: string, y: string)
    requires WriteChar(c, x) == WriteChar(d, y)
    ensures c == d && x == y
  {
    var s, t := WriteChar(c, x), WriteChar(d, y);
    assert s[0] == t[0];
    if s[0] == '\\' {
      assert s[1] == t[1];
      if s[1] == 'u' {
        assert s[4] == t[4] && s[5] == t[5];
        assert x == s[6..] && y == t[6..];
      } else {
        assert x == s[2..] && y == t[2..];
      }
    } else {
      assert x == s[1..] && y == t[1..];
    }
  }

  lemma WriteCharsHead(s: string, x: string)
    ensures WriteChars(s, x) != []
    ensures s == [] <==> WriteChars(s, x)[0] == '\"'
  {
  }

  lemma {:induction false} WriteCharsInjective(s: string, t: string, x: string, y: string)
    requires WriteChars(s, x) == WriteChars(t, y)
    ensures s == t && x == y
  {
    WriteCharsHead(s, x);
    WriteCharsHead(t, y);
    if s == [] {
      Drop(['\"'], x, y);
    } else {
      var u, w := WriteChars(s[1..], x), WriteChars(t[1..], y);
      WriteCharInjective(s[0], t[0], u, w);
      WriteCharsInjective(s[1..], t[1..], x, y);
      assert s == [s[0]] + s[1..] && t == [t[0]] + t[1..];
    }
  }

  // ---------------------------------------------------------------- values

  /** What may follow a value inside a JSON text. */
  predicate Delimited(x: string) {
    x == [] || x[0] == ',' || x[0] == ']' || x[0] == '}'
  }

  /** A value whose numbers are finite and printed as numerals. */
  predicate Printable(v: Json) {
    match v
    case Num(n) => n.Finite? && NumberText(n.text)
    case Arr(items) => forall i :: 0 <= i < |items| ==> Printable(items[i])
    case Obj(ms) => forall i :: 0 <= i < |ms| ==> Printable(ms[i].value)
    case _ => true
  }

  /** The first character of a text tells what kind of value it is. */
  predicate StartsAs(c: char, v: Json) {
    match v
    case Null => c == 'n'
    case Bool(b) => c == if b then 't' else 'f'
    case Num(_) => c == '-' || '0' <= c <= '9'
    case Str(_) => c == '\"'
    case Arr(_) => c == '['
    case Obj(_) => c == '{'
  }

  lemma WriteHead(v: Json, x: string)
    requires Printable(v)
    ensures Write(v, x) != [] && StartsAs(Write(v, x)[0], v)
  {
  }

  predicate NumberChars(s: string) {
    forall i :: 0 <= i < |s| ==> s[i] in "0123456789+-.e"
  }

  lemma NumeralInjective(s: string, t: string, x: string, y: string)
    requires NumberChars(s) && NumberChars(t) && Delimited(x) && Delimited(y)
    requires s + x == t + y
    ensures s == t && x == y
  {
    NumeralNotLonger(s, t, x, y);
    NumeralNotLonger(t, s, y, x);
    assert s == (s + x)[..|s|] == t;
    Drop(s, x, y);
  }

  lemma NumeralNotLonger(s: string, t: string, x: string, y: string)
    requires NumberChars(t) && Delimited(x) && s + x == t + y
    ensures |t| <= |s|
  {
    var u := s + x;
    assert forall k :: 0 <= k < |t| ==> u[k] == (t + y)[k] == t[k];
    assert x != [] ==> u[|s|] == x[0];
  }

  /** A text is read back in one way only: two printable values with the same text, each followed by
      nothing or a delimiter, are the same value and are followed by the same text. */
  lemma {:induction false} WriteInjective(a: Json, b: Json, x: string, y: string)
    requires Printable(a) && Printable(b) && Delimited(x) && Delimited(y)
    requires Write(a, x) == Write(b, y)
    ensures a == b && x == y
    decreases a, 2
  {
    WriteHead(a, x);
    WriteHead(b, y);
    match a
    case Null => Drop(['n', 'u', 'l', 'l'], x, y);
    case Bool(v) => Drop(if v then ['t', 'r', 'u', 'e'] else ['f', 'a', 'l', 's', 'e'], x, y);
    case Num(n) => NumeralInjective(n.text, b.n.text, x, y);
    case Str(s) =>
      Drop(['\"'], WriteChars(s, x), WriteChars(b.s, y));
      WriteCharsInjective(s, b.s, x, y);
    case Arr(s) => ArrayInjective(s, b.items, x, y);
    case Obj(p) => ObjectInjective(p, b.members, x, y);
  }

  /** The text after the opening bracket, which begins with the closing one only when empty. */
  function ArrayBody(items: seq<Json>, x: string): string {
    if items == [] then [']'] + x else Write(items[0], WriteItems(items[1..], x))
  }

  lemma ArrayBodyHead(items: seq<Json>, x: string)
    requires Printable(Arr(items))
    ensures ArrayBody(items, x) != []
    ensures items == [] <==> ArrayBody(items, x)[0] == ']'
  {
    if items != [] { WriteHead(items[0], WriteItems(items[1..], x)); }
  }

  lemma {:induction false} ArrayInjective(s: seq<Json>, t: seq<Json>, x: string, y: string)
    requires Printable(Arr(s)) && Printable(Arr(t)) && Delimited(x) && Delimited(y)
    requires Write(Arr(s), x) == Write(Arr(t), y)
    ensures s == t && x == y
    decreases s, 1
  {
    Drop(['['], ArrayBody(s, x), ArrayBody(t, y));
    ArrayBodyHead(s, x);
    ArrayBodyHead(t, y);
    if s == [] {
      Drop([']'], x, y);
    } else {
      WriteInjective(s[0], t[0], WriteItems(s[1..], x), WriteItems(t[1..], y));
      WriteItemsInjective(s[1..], t[1..], x, y);
      assert s == [s[0]] + s[1..] && t == [t[0]] + t[1..];
    }
  }

  lemma {:induction false} WriteItemsInjective(s: seq<Json>, t: seq<Json>, x: string, y: string)
    requires forall i :: 0 <= i < |s| ==> Printable(s[i])
    requires forall i :: 0 <= i < |t| ==> Printable(t[i])
    requires WriteItems(s, x) == WriteItems(t, y)
    ensures s == t && x == y
    decreases s, 0
  {
    assert WriteItems(s, x)[0] == WriteItems(t, y)[0];
    if s == [] {
      Drop([']'], x, y);
    } else {
      var u, w := WriteItems(s[1..], x), WriteItems(t[1..], y);
      Drop([','], Write(s[0], u), Write(t[0], w));
      WriteInjective(s[0], t[0], u, w);
      WriteItemsInjective(s[1..], t[1..], x, y);
      assert s == [s[0]] + s[1..] && t == [t[0]] + t[1..];
    }
  }

  lemma {:induction false} WriteMemberInjective(m: Member, n: Member, x: string, y: string)
    requires Printable(m.value) && Printable(n.value) && Delimited(x) && Delimited(y)
    requires WriteMember(m, x) == WriteMember(n, y)
    ensures m == n && x == y
    decreases m, 3
  {
    var u, w := Write(m.value, x), Write(n.value, y);
    Drop(['\"'], WriteChars(m.key, [':'] + u), WriteChars(n.key, [':'] + w));
    WriteCharsInjective(m.key, n.key, [':'] + u, [':'] + w);
    Drop([':'], u, w);
    WriteInjective(m.value, n.value, x, y);
  }

  function ObjectBody(ms: seq<Member>, x: string): string {
    if ms == [] then ['}'] + x else WriteMember(ms[0], WriteMembers(ms[1..], x))
  }

  lemma {:induction false} ObjectInjective(p: seq<Member>, q: seq<Member>, x: string, y: string)
    requires Printable(Obj(p)) && Printable(Obj(q)) && Delimited(x) && Delimited(y)
    requires Write(Obj(p), x) == Write(Obj(q), y)
    ensures p == q && x == y
    decreases p, 1
  {
    Drop(['{'], ObjectBody(p, x), ObjectBody(q, y));
    assert ObjectBody(p, x)[0] == ObjectBody(q, y)[0];
    if p == [] {
      Drop(['}'], x, y);
    } else {
      WriteMemberInjective(p[0], q[0], WriteMembers(p[1..], x), WriteMembers(q[1..], y));
      WriteMembersInjective(p[1..], q[1..], x, y);
      assert p == [p[0]] + p[1..] && q == [q[0]] + q[1..];
    }
  }

  lemma {:induction false} WriteMembersInjective(p: seq<Member>, q: seq<Member>, x: string, y: string)
    requires forall i :: 0 <= i < |p| ==> Printable(p[i].value)
    requires forall i :: 0 <= i < |q| ==> Printable(q[i].value)
    requires WriteMembers(p, x) == WriteMembers(q, y)
    ensures p == q && x == y
    decreases p, 0
  {
    assert WriteMembers(p, x)[0] == WriteMembers(q, y)[0];
    if p == [] {
      Drop(['}'], x, y);
    } else {
      var u, w := WriteMembers(p[1..], x), WriteMembers(q[1..], y);
      Drop([','], WriteMember(p[0], u), WriteMember(q[0], w));
      WriteMemberInjective(p[0], q[0], u, w);
      WriteMembersInjective(p[1..], q[1..], x, y);
      assert p == [p[0]] + p[1..] && q == [q[0]] + q[1..];
    }
  }

  /** The text of a printable value determines it. */
  lemma StringifyInjective(a: Json, b: Json)
    requires Printable(a) && Printable(b)
    ensures Stringify(a) == Stringify(b) <==> a == b
  {
    if Stringify(a) == Stringify(b) { WriteInjective(a, b, "", ""); }
  }

  // ---------------------------------------------------------------- what the text is

  lemma WriteCharAppends(c: char, x: string, y: string)
    ensures WriteChar(c, x + y) == WriteChar(c, x) + y
  {
  }

  lemma {:induction false} WriteCharsAppends(s: string, x: string, y: string)
    ensures WriteChars(s, x + y) == WriteChars(s, x) + y
  {
    if s != [] {
      WriteCharsAppends(s[1..], x, y);
      WriteCharAppends(s[0], WriteChars(s[1..], x), y);
    }
  }

  lemma {:induction false} WriteAppends(v: Json, x: string, y: string)
    ensures Write(v, x + y) == Write(v, x) + y
    decreases v, 2
  {
    match v
    case Str(s) => WriteCharsAppends(s, x, y);
    case Arr(s) =>
      if s != [] {
        WriteItemsAppends(s[1..], x, y);
        WriteAppends(s[0], WriteItems(s[1..], x), y);
      }
    case Obj(p) =>
      if p != [] {
        WriteMembersAppends(p[1..], x, y);
        WriteMemberAppends(p[0], WriteMembers(p[1..], x), y);
      }
    case _ =>
  }

  lemma {:induction false} WriteItemsAppends(s: seq<Json>, x: string, y: string)
    ensures WriteItems(s, x + y) == WriteItems(s, x) + y
    decreases s, 0
  {
    if s != [] {
      WriteItemsAppends(s[1..], x, y);
      WriteAppends(s[0], WriteItems(s[1..], x), y);
    }
  }

  lemma {:induction false} WriteMemberAppends(m: Member, x: string, y: string)
    ensures WriteMember(m, x + y) == WriteMember(m, x) + y
    decreases m, 3
  {
    WriteAppends(m.value, x, y);
    assert [':'] + Write(m.value, x + y) == ([':'] + Write(m.value, x)) + y;
    WriteCharsAppends(m.key, [':'] + Write(m.value, x), y);
  }

  lemma {:induction false} WriteMembersAppends(p: seq<Member>, x: string, y: string)
    ensures WriteMembers(p, x + y) == WriteMembers(p, x) + y
    decreases p, 0
  {
    if p != [] {
      WriteMembersAppends(p[1..], x, y);
      WriteMemberAppends(p[0], WriteMembers(p[1..], x), y);
    }
  }

  /** Texts with a comma between each and the next. */
  function Joined(texts: seq<string>): string {
    if texts == [] then "" else if |texts| == 1 then texts[0] else texts[0] + "," + Joined(texts[1..])
  }

  function ItemTexts(s: seq<Json>): seq<string> {
    seq(|s|, i requires 0 <= i < |s| => Stringify(s[i]))
  }

  function MemberTexts(p: seq<Member>): seq<string> {
    seq(|p|, i requires 0 <= i < |p| => Stringify(Str(p[i].key)) + ":" + Stringify(p[i].value))
  }

  lemma ItemText(v: Json, x: string)
    ensures Write(v, x) == Stringify(v) + x
  {
    hide Write;
    WriteAppends(v, "", x);
    assert "" + x == x;
  }

  lemma {:induction false} ItemsAreJoined(s: seq<Json>)
    requires s != []
    ensures Write(s[0], WriteItems(s[1..], "")) == Joined(ItemTexts(s)) + "]"
  {
    hide Stringify, Write;
    ItemText(s[0], WriteItems(s[1..], ""));
    if |s| > 1 {
      ItemsAreJoined(s[1..]);
      assert ItemTexts(s)[1..] == ItemTexts(s[1..]);
    }
  }

  lemma MemberText(m: Member, x: string)
    ensures WriteMember(m, x) == Stringify(Str(m.key)) + ":" + Stringify(m.value) + x
  {
    hide WriteChars, Write;
    var tail := [':'] + Write(m.value, x);
    WriteAppends(m.value, "", x);
    assert "" + x == x && "" + tail == tail;
    WriteCharsAppends(m.key, "", tail);
    StringText(m.key);
    assert WriteMember(m, x) == ['\"'] + (WriteChars(m.key, "") + tail);
    assert tail == ":" + (Stringify(m.value) + x);
  }

  lemma StringText(s: string)
    ensures Stringify(Str(s)) == ['\"'] + WriteChars(s, "")
  {
    hide WriteChars;
  }

  lemma {:induction false} MembersAreJoined(p: seq<Member>)
    requires p != []
    ensures WriteMember(p[0], WriteMembers(p[1..], "")) == Joined(MemberTexts(p)) + "}"
  {
    hide Stringify, WriteMember;
    MemberText(p[0], WriteMembers(p[1..], ""));
    if |p| > 1 {
      MembersAreJoined(p[1..]);
      assert MemberTexts(p)[1..] == MemberTexts(p[1..]);
    }
  }

  /** The text of a value is made of the texts of its parts, as section 25.5.2 of ECMA-262 says. */
  lemma StringifyComposes(s: seq<Json>, p: seq<Member>, t: string)
    ensures Stringify(Null) == "null" && Stringify(Bool(true)) == "true" && Stringify(Bool(false)) == "false"
    ensures Stringify(Num(Finite(t))) == t && Stringify(Num(NonFinite(true))) == "null"
    ensures Stringify(Num(NonFinite(false))) == "null"
    ensures Stringify(Arr(s)) == "[" + Joined(ItemTexts(s)) + "]"
    ensures Stringify(Obj(p)) == "{" + Joined(MemberTexts(p)) + "}"
  {
    if s != [] { ItemsAreJoined(s); }
    if p != [] { MembersAreJoined(p); }
  }

  /** What stands for one character inside a quoted string. */
  lemma EscapeOf(c: char)
    ensures WriteChar('\"', "") == "\\\"" && WriteChar('\\', "") == "\\\\"
    ensures WriteChar('\n', "") == "\\n" && WriteChar('\r', "") == "\\r" && WriteChar('\t', "") == "\\t"
    ensures WriteChar(8 as char, "") == "\\b" && WriteChar(12 as char, "") == "\\f"
    ensures c >= ' ' && c != '\"' && c != '\\' ==> WriteChar(c, "") == [c]
  {
  }

  /** Every other control character is a \u escape with its code in four hex digits. */
  lemma ControlEscape(c: char)
    requires c as int < 32 && c as int !in {8, 9, 10, 12, 13}
    ensures var w := WriteChar(c, "");
            && |w| == 6 && w[..4] == "\\u00"
            && w[4] == (if c as int < 16 then '0' else '1')
            && w[5] as int == c as int % 16 + if c as int % 16 < 10 then '0' as int else 'a' as int - 10
  {
  }

  /** A quoted string is the quotation mark, what stands for each character, and the quotation mark. */
  lemma StringifyText(s: string, c: char)
    ensures Stringify(Str("")) == "\"\""
    ensures Stringify(Str([c] + s)) == "\"" + WriteChar(c, "") + Stringify(Str(s))[1..]
  {
    hide WriteChar;
    var rest := WriteChars(s, "");
    StringText("");
    StringText(s);
    StringText([c] + s);
    CharText(c, s);
    WriteCharAppends(c, "", rest);
    assert "" + rest == rest;
  }

  lemma CharText(c: char, s: string)
    ensures WriteChars([c] + s, "") == WriteChar(c, WriteChars(s, ""))
  {
    assert ([c] + s)[1..] == s;
  }
}
