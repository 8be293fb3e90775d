/**
 * JSON values and the compact text json.dumps and serde_json print for them.
 * Floats are not part of this model.
 */
module JsonText {
  import opened Text

  datatype Value =
    | Null
    | Bool(b: bool)
    | Int(n: int)
    | Str(s: string)
    | List(items: seq<Value>)
    | Object(members: seq<Member>)

  /** One entry of a dictionary, in insertion order. */
  datatype Member = Member(key: string, value: Value)

  // ----- Strings -----

  function HexDigit(d: nat): char
    requires d < 16
  {
    if d < 10 then '0' + d as char else 'a' + (d - 10) as char
  }

  function Hex4(n: nat): string
    requires n < 0x1_0000
  {
    [HexDigit(n / 16 / 16 / 16), HexDigit(n / 16 / 16 % 16), HexDigit(n / 16 % 16), HexDigit(n % 16)]
  }

  function ShortEscape(c: char): ShortForm {
    if c == '"' then Escaped('"')
    else if c == '\\' then Escaped('\\')
    else if c == '\n' then Escaped('n')
    else if c == '\r' then Escaped('r')
    else if c == '\t' then Escaped('t')
    else if c == '\U{8}' then Escaped('b')
    else if c == '\U{C}' then Escaped('f')
    else NotEscaped
  }

  datatype ShortForm = NotEscaped | Escaped(letter: char)

  /** The UTF-16 surrogate pair of a supplementary code point. */
  function HighSurrogate(n: nat): nat
    requires 0x1_0000 <= n < 0x11_0000
  {
    0xD800 + (n - 0x1_0000) / 0x400
  }

  function LowSurrogate(n: nat): nat
    requires 0x1_0000 <= n < 0x11_0000
  {
    0xDC00 + (n - 0x1_0000) % 0x400
  }

  /**
   * One character inside a string literal. With ascii set, as json.dumps with
   * ensure_ascii; otherwise as serde_json, which keeps everything from U+0020 up.
   */
  function EscapeChar(c: char, ascii: bool): string {
    var n := c as int;
    if ShortEscape(c).Escaped? then ['\\', ShortEscape(c).letter]
    else if n < 0x20 || (ascii && 0x7F <= n < 0x1_0000) then "\\u" + Hex4(n)
    else if ascii && n >= 0x1_0000 then "\\u" + Hex4(HighSurrogate(n)) + "\\u" + Hex4(LowSurrogate(n))
    else [c]
  }

  // Each writer puts its text in front of what is written next.

  function WriteChars(s: string, rest: string, ascii: bool): string {
    if s == [] then rest else EscapeChar(s[0], ascii) + WriteChars(s[1..], rest, ascii)
  }

  function WriteString(s: string, rest: string, ascii: bool): string {
    ['"'] + WriteChars(s, ['"'] + rest, ascii)
  }

  // ----- Values -----

  function WriteInt(n: int, rest: string): string {
    if n < 0 then ['-'] + (Decimal(-n) + rest) else Decimal(n) + rest
  }

  function Write(v: Value, rest: string, ascii: bool): string
    decreases v
  {
    match v
    case Null => "null" + rest
    case Bool(b) => (if b then "true" else "false") + rest
    case Int(n) => WriteInt(n, rest)
    case Str(s) => WriteString(s, rest, ascii)
    case List(items) =>
      ['['] + if items == [] then [']'] + rest else Write(items[0], WriteItems(items[1..], rest, ascii), ascii)
    case Object(members) =>
      ['{'] + if members == [] then ['}'] + rest
        else WriteMember(members[0], WriteMembers(members[1..], rest, ascii), ascii)
  }

  /** The items after the first, each behind its separator, and the closing bracket. */
  function WriteItems(items: seq<Value>, rest: string, ascii: bool): string
    decreases items
  {
    if items == [] then [']'] + rest
    else [','] + Write(items[0], WriteItems(items[1..], rest, ascii), ascii)
  }

  function WriteMember(m: Member, rest: string, ascii: bool): string
    decreases m
  {
    WriteString(m.key, [':'] + Write(m.value, rest, ascii), ascii)
  }

  function WriteMembers(members: seq<Member>, rest: string, ascii: bool): string
    decreases members
  {
    if members == [] then ['}'] + rest
    else [','] + WriteMember(members[0], WriteMembers(members[1..], rest, ascii), ascii)
  }

  function Print(v: Value, ascii: bool): string { Write(v, "", ascii) }

  // ----- The text of a string determines the string -----

  lemma SameHead(c: char, x: string, d: char, y: string)
    requires [c] + x == [d] + y
    ensures c == d && x == y
  {
    assert ([c] + x)[0] == c && ([d] + y)[0] == d;
    assert ([c] + x)[1..] == x && ([d] + y)[1..] == y;
  }

  lemma SameLength(p: string, x: string, q: string, y: string)
    requires p + x == q + y && |p| == |q|
    ensures p == q && x == y
  {
    assert (p + x)[..|p|] == p && (q + y)[..|q|] == q;
    assert (p + x)[|p|..] == x && (q + y)[|q|..] == y;
  }

  function UnHex(c: char): int {
    if c <= '9' then c as int - '0' as int else c as int - 'a' as int + 10
  }

  /** The number that four hexadecimal digits denote. */
  function UnHex4(s: string): int
    requires |s| == 4
  {
    4096 * UnHex(s[0]) + 256 * UnHex(s[1]) + 16 * UnHex(s[2]) + UnHex(s[3])
  }

  lemma UnHexHexDigit(d: nat)
    requires d < 16
    ensures UnHex(HexDigit(d)) == d && ' ' <= HexDigit(d) <= '~'
  {
  }

  lemma UnHex4Hex4(n: nat)
    requires n < 0x1_0000
    ensures UnHex4(Hex4(n)) == n
  {
    var a := n / 16;
    var b := a / 16;
    var c := b / 16;
    UnHexHexDigit(c);
    UnHexHexDigit(b % 16);
    UnHexHexDigit(a % 16);
    UnHexHexDigit(n % 16);
  }

  /** The first UTF-16 unit of a code point. */
  function FirstUnit(n: int): nat
    requires 0 <= n < 0x11_0000
  {
    if n < 0x1_0000 then n else HighSurrogate(n)
  }

  /** The three shapes of a character's text. */
  lemma EscapeShape(c: char, ascii: bool)
    ensures var e := EscapeChar(c, ascii);
            || (e == [c] && c != '\\' && c != '"')
            || (|e| == 2 && e[0] == '\\' && e[1] != 'u' && ShortEscape(c) == Escaped(e[1]))
            || (|e| >= 6 && e[0] == '\\' && e[1] == 'u' && e[2..6] == Hex4(FirstUnit(c as int)) &&
                if c as int < 0x1_0000 then |e| == 6 else |e| == 12 && e[8..] == Hex4(LowSurrogate(c as int)))
  {
  }

  /** The escapes of two characters agree on a common text only if the characters are the same. */
  lemma EscapeCharUnambiguous(c: char, x: string, d: char, y: string, ascii: bool)
    requires EscapeChar(c, ascii) + x == EscapeChar(d, ascii) + y
    ensures c == d && x == y
  {
    var e, f := EscapeChar(c, ascii), EscapeChar(d, ascii);
    EscapeShape(c, ascii);
    EscapeShape(d, ascii);
    assert e[0] == (e + x)[0] == (f + y)[0] == f[0];
    if |e| > 1 && |f| > 1 {
      assert e[1] == (e + x)[1] == (f + y)[1] == f[1];
      if |e| >= 6 && |f| >= 6 {
        assert e[2..6] == (e + x)[2..6] == (f + y)[2..6] == f[2..6];
        UnHex4Hex4(FirstUnit(c as int));
        UnHex4Hex4(FirstUnit(d as int));
        if |e| == 12 && |f| == 12 {
          assert e[8..] == (e + x)[8..12] == (f + y)[8..12] == f[8..];
          UnHex4Hex4(LowSurrogate(c as int));
          UnHex4Hex4(LowSurrogate(d as int));
        }
      }
    }
    SameLength(e, x, f, y);
  }

  lemma {:induction false} WriteCharsUnambiguous(s: string, x: string, t: string, y: string, ascii: bool)
    requires WriteChars(s, ['"'] + x, ascii) == WriteChars(t, ['"'] + y, ascii)
    ensures s == t && x == y
  {
    if s != [] { EscapeShape(s[0], ascii); }
    if t != [] { EscapeShape(t[0], ascii); }
    if s == [] && t == [] {
      SameHead('"', x, '"', y);
    } else if s != [] && t != [] {
      var u, v := WriteChars(s[1..], ['"'] + x, ascii), WriteChars(t[1..], ['"'] + y, ascii);
      EscapeCharUnambiguous(s[0], u, t[0], v, ascii);
      WriteCharsUnambiguous(s[1..], x, t[1..], y, ascii);
      assert s == [s[0]] + s[1..] && t == [t[0]] + t[1..];
    } else if s == [] {
      assert WriteChars(t, ['"'] + y, ascii)[0] == EscapeChar(t[0], ascii)[0];
    } else {
      assert WriteChars(s, ['"'] + x, ascii)[0] == EscapeChar(s[0], ascii)[0];
    }
  }

  lemma WriteStringUnambiguous(s: string, x: string, t: string, y: string, ascii: bool)
    requires WriteString(s, x, ascii) == WriteString(t, y, ascii)
    ensures s == t && x == y
  {
    SameHead('"', WriteChars(s, ['"'] + x, ascii), '"', WriteChars(t, ['"'] + y, ascii));
    WriteCharsUnambiguous(s, x, t, y, ascii);
  }

  // ----- The text of a number determines the number -----

  predicate NoDigitFirst(x: string) { x == [] || !IsDigit(x[0]) }

  lemma {:induction false} DigitsUnambiguous(a: string, x: string, b: string, y: string)
    requires AllDigits(a) && AllDigits(b) && NoDigitFirst(x) && NoDigitFirst(y)
    requires a + x == b + y
    ensures a == b && x == y
  {
    var s := a + x;
    assert forall i :: 0 <= i < |a| ==> s[i] == a[i];
    assert forall i :: 0 <= i < |b| ==> s[i] == b[i];
    assert |a| < |s| ==> s[|a|] == x[0];
    assert |b| < |s| ==> s[|b|] == y[0];
    SameLength(a, x, b, y);
  }

  lemma DecimalUnambiguous(m: nat, x: string, n: nat, y: string)
    requires NoDigitFirst(x) && NoDigitFirst(y)
    requires Decimal(m) + x == Decimal(n) + y
    ensures m == n && x == y
  {
    DigitsUnambiguous(Decimal(m), x, Decimal(n), y);
    NatOfDecimal(m);
    NatOfDecimal(n);
  }

  lemma DecimalStart(n: nat, x: string)
    ensures |Decimal(n) + x| >= 1 && IsDigit((Decimal(n) + x)[0])
  {
    assert (Decimal(n) + x)[0] == Decimal(n)[0];
  }

  lemma WriteIntUnambiguous(m: int, x: string, n: int, y: string)
    requires NoDigitFirst(x) && NoDigitFirst(y)
    requires WriteInt(m, x) == WriteInt(n, y)
    ensures m == n && x == y
  {
    if m >= 0 { DecimalStart(m, x); }
    if n >= 0 { DecimalStart(n, y); }
    assert m < 0 <==> WriteInt(m, x)[0] == '-';
    assert n < 0 <==> WriteInt(n, y)[0] == '-';
    if m < 0 {
      SameHead('-', Decimal(-m) + x, '-', Decimal(-n) + y);
      DecimalUnambiguous(-m, x, -n, y);
    } else {
      DecimalUnambiguous(m, x, n, y);
    }
  }

  // ----- The text of a value determines the value -----

  /** What may follow a value inside a larger text. */
  predicate Terminated(x: string) { x == [] || x[0] in {',', ']', '}'} }

  datatype Kind = NullKind | TrueKind | FalseKind | IntKind | StrKind | ListKind | ObjectKind | NoKind

  function KindOf(v: Value): Kind {
    match v
    case Null => NullKind
    case Bool(b) => if b then TrueKind else FalseKind
    case Int(_) => IntKind
    case Str(_) => StrKind
    case List(_) => ListKind
    case Object(_) => ObjectKind
  }

  function KindByFirst(c: char): Kind {
    if c == 'n' then NullKind
    else if c == 't' then TrueKind
    else if c == 'f' then FalseKind
    else if c == '-' || IsDigit(c) then IntKind
    else if c == '"' then StrKind
    else if c == '[' then ListKind
    else if c == '{' then ObjectKind
    else NoKind
  }

  /** The first character of a value's text tells which kind of value it is. */
  lemma FirstCharacter(v: Value, x: string, ascii: bool)
    ensures |Write(v, x, ascii)| >= 1
    ensures KindByFirst(Write(v, x, ascii)[0]) == KindOf(v)
  {
    if v.Int? && v.n >= 0 { DecimalStart(v.n, x); }
  }

  lemma {:induction false} WriteUnambiguous(a: Value, x: string, b: Value, y: string, ascii: bool)
    requires Terminated(x) && Terminated(y)
    requires Write(a, x, ascii) == Write(b, y, ascii)
    ensures a == b && x == y
    decreases a, 1
  {
    FirstCharacter(a, x, ascii);
    FirstCharacter(b, y, ascii);
    match a {
      case Null =>
        SameLength("null", x, "null", y);
      case Bool(p) =>
        var word := if p then "true" else "false";
        SameLength(word, x, word, y);
      case Int(n) =>
        WriteIntUnambiguous(n, x, b.n, y);
      case Str(s) =>
        WriteStringUnambiguous(s, x, b.s, y, ascii);
      case List(items) =>
        ListUnambiguous(items, x, b.items, y, ascii);
      case Object(members) =>
        ObjectUnambiguous(members, x, b.members, y, ascii);
    }
  }

  lemma {:induction false} ListUnambiguous(a: seq<Value>, x: string, b: seq<Value>, y: string, ascii: bool)
    requires Write(List(a), x, ascii) == Write(List(b), y, ascii)
    ensures a == b && x == y
    decreases a, 1
  {
    var left := if a == [] then [']'] + x else Write(a[0], WriteItems(a[1..], x, ascii), ascii);
    var right := if b == [] then [']'] + y else Write(b[0], WriteItems(b[1..], y, ascii), ascii);
    SameHead('[', left, '[', right);
    if a != [] { FirstCharacter(a[0], WriteItems(a[1..], x, ascii), ascii); }
    if b != [] { FirstCharacter(b[0], WriteItems(b[1..], y, ascii), ascii); }
    assert a == [] <==> left[0] == ']';
    assert b == [] <==> right[0] == ']';
    if a == [] {
      SameHead(']', x, ']', y);
    } else {
      WriteUnambiguous(a[0], WriteItems(a[1..], x, ascii), b[0], WriteItems(b[1..], y, ascii), ascii);
      ItemsUnambiguous(a[1..], x, b[1..], y, ascii);
      assert a == [a[0]] + a[1..] && b == [b[0]] + b[1..];
    }
  }

  lemma {:induction false} ItemsUnambiguous(a: seq<Value>, x: string, b: seq<Value>, y: string, ascii: bool)
    requires WriteItems(a, x, ascii) == WriteItems(b, y, ascii)
    ensures a == b && x == y
    decreases a, 0
  {
    assert a == [] <==> WriteItems(a, x, ascii)[0] == ']';
    assert b == [] <==> WriteItems(b, y, ascii)[0] == ']';
    if a == [] {
      SameHead(']', x, ']', y);
    } else {
      var u, v := WriteItems(a[1..], x, ascii), WriteItems(b[1..], y, ascii);
      SameHead(',', Write(a[0], u, ascii), ',', Write(b[0], v, ascii));
      WriteUnambiguous(a[0], u, b[0], v, ascii);
      ItemsUnambiguous(a[1..], x, b[1..], y, ascii);
      assert a == [a[0]] + a[1..] && b == [b[0]] + b[1..];
    }
  }

  lemma {:induction false} MemberUnambiguous(a: Member, x: string, b: Member, y: string, ascii: bool)
    requires Terminated(x) && Terminated(y)
    requires WriteMember(a, x, ascii) == WriteMember(b, y, ascii)
    ensures a == b && x == y
    decreases a
  {
    var u, v := Write(a.value, x, ascii), Write(b.value, y, ascii);
    WriteStringUnambiguous(a.key, [':'] + u, b.key, [':'] + v, ascii);
    SameHead(':', u, ':', v);
    WriteUnambiguous(a.value, x, b.value, y, ascii);
  }

  lemma {:induction false} ObjectUnambiguous(a: seq<Member>, x: string, b: seq<Member>, y: string, ascii: bool)
    requires Write(Object(a), x, ascii) == Write(Object(b), y, ascii)
    ensures a == b && x == y
    decreases a, 1
  {
    var left := if a == [] then ['}'] + x else WriteMember(a[0], WriteMembers(a[1..], x, ascii), ascii);
    var right := if b == [] then ['}'] + y else WriteMember(b[0], WriteMembers(b[1..], y, ascii), ascii);
    SameHead('{', left, '{', right);
    assert a == [] <==> left[0] == '}';
    assert b == [] <==> right[0] == '}';
    if a == [] {
      SameHead('}', x, '}', y);
    } else {
      MemberUnambiguous(a[0], WriteMembers(a[1..], x, ascii), b[0], WriteMembers(b[1..], y, ascii), ascii);
      MembersUnambiguous(a[1..], x, b[1..], y, ascii);
      assert a == [a[0]] + a[1..] && b == [b[0]] + b[1..];
    }
  }

  lemma {:induction false} MembersUnambiguous(a: seq<Member>, x: string, b: seq<Member>, y: string, ascii: bool)
    requires WriteMembers(a, x, ascii) == WriteMembers(b, y, ascii)
    ensures a == b && x == y
    decreases a, 0
  {
    assert a == [] <==> WriteMembers(a, x, ascii)[0] == '}';
    assert b == [] <==> WriteMembers(b, y, ascii)[0] == '}';
    if a == [] {
      SameHead('}', x, '}', y);
    } else {
      var u, v := WriteMembers(a[1..], x, ascii), WriteMembers(b[1..], y, ascii);
      SameHead(',', WriteMember(a[0], u, ascii), ',', WriteMember(b[0], v, ascii));
      MemberUnambiguous(a[0], u, b[0], v, ascii);
      MembersUnambiguous(a[1..], x, b[1..], y, ascii);
      assert a == [a[0]] + a[1..] && b == [b[0]] + b[1..];
    }
  }

  /** No two values have the same text, under either escaping. */
  lemma PrintInjective(a: Value, b: Value, ascii: bool)
    ensures Print(a, ascii) == Print(b, ascii) <==> a == b
  {
    if Print(a, ascii) == Print(b, ascii) {
      WriteUnambiguous(a, [], b, [], ascii);
    }
  }
}
