/** JSON text and what it stands for: printing a value, and reading the text back (RFC 8259). */
module Json {

  /** A UTF-16 code unit; text is a sequence of them, surrogates included. */
  type Unit = u: int | 0 <= u < 0x1_0000

  type Text = seq<Unit>

  /** Digits, '+', '-', '.' and 'e': what a printed number is made of. */
  predicate NumberUnit(u: Unit) {
    48 <= u <= 57 || u == 43 || u == 45 || u == 46 || u == 101
  }

  type NumberText = t: Text | t != [] && forall i :: 0 <= i < |t| ==> NumberUnit(t[i]) witness [48]

  datatype Keyed<T> = Keyed(key: Text, item: T)

  datatype Json = JNull | JBool(value: bool) | JNumber(text: NumberText) | JString(chars: Text)
    | JArray(items: seq<Json>) | JObject(members: seq<Keyed<Json>>)

  // ----- printing -----

  function HexDigit(n: int): Unit
    requires 0 <= n < 16
  {
    if n < 10 then 48 + n else 87 + n
  }

  /** `\u` and four hexadecimal digits. */
  function UnicodeEscape(u: Unit): Text {
    [92, 117, HexDigit(u / 4096), HexDigit(u / 256 % 16), HexDigit(u / 16 % 16), HexDigit(u % 16)]
  }

  predicate HighSurrogate(u: Unit) { 0xD800 <= u <= 0xDBFF }

  predicate LowSurrogate(u: Unit) { 0xDC00 <= u <= 0xDFFF }

  /** The escape of a unit that is not half of a pair: two units where there is a short form, six where there is not. */
  function Escape(u: Unit): Text {
    if u == 34 || u == 92 then [92, u]
    else if u == 8 then [92, 98]
    else if u == 9 then [92, 116]
    else if u == 10 then [92, 110]
    else if u == 12 then [92, 102]
    else if u == 13 then [92, 114]
    else if u < 32 || HighSurrogate(u) || LowSurrogate(u) then UnicodeEscape(u)
    else [u]
  }

  function EscapeAll(s: Text): Text {
    if s == [] then []
    else if |s| > 1 && HighSurrogate(s[0]) && LowSurrogate(s[1]) then s[..2] + EscapeAll(s[2..])
    else Escape(s[0]) + EscapeAll(s[1..])
  }

  /** `JSON.stringify` of a string. */
  function Quote(s: Text): Text {
    [34] + EscapeAll(s) + [34]
  }

  /** `parts.join(",")`. */
  function Join(parts: seq<Text>): Text {
    if parts == [] then []
    else if |parts| == 1 then parts[0]
    else parts[0] + [44] + Join(parts[1..])
  }

  /** A member is its quoted key, a colon and its value's text. */
  function Part(entry: Keyed<Text>): Text {
    Quote(entry.key) + [58] + entry.item
  }

  function Parts(entries: seq<Keyed<Text>>): seq<Text> {
    if entries == [] then [] else [Part(entries[0])] + Parts(entries[1..])
  }

  const NULL: Text := [110, 117, 108, 108]
  const TRUE: Text := [116, 114, 117, 101]
  const FALSE: Text := [102, 97, 108, 115, 101]

  function Print(v: Json): Text {
    match v
    case JNull => NULL
    case JBool(value) => if value then TRUE else FALSE
    case JNumber(text) => text
    case JString(chars) => Quote(chars)
    case JArray(items) => [91] + Join(PrintAll(items)) + [93]
    case JObject(members) => [123] + Join(Parts(PrintEntries(members))) + [125]
  }

  function PrintAll(items: seq<Json>): (texts: seq<Text>)
    ensures |texts| == |items|
  {
    if items == [] then [] else [Print(items[0])] + PrintAll(items[1..])
  }

  function PrintEntries(members: seq<Keyed<Json>>): (entries: seq<Keyed<Text>>)
    ensures |entries| == |members|
  {
    if members == [] then [] else [Keyed(members[0].key, Print(members[0].item))] + PrintEntries(members[1..])
  }

  /**
   * Which units are written out: one that is plain stands for itself, seven have a short form, and the other controls
   * and halves of pairs take four hexadecimal digits, in lower case.
   */
  lemma EscapedExactlyWhen(u: Unit)
    ensures |Escape(u)| == 1 <==> u >= 32 && u != 34 && u != 92 && !(0xD800 <= u <= 0xDFFF)
    ensures |Escape(u)| == 1 ==> Escape(u) == [u]
    ensures |Escape(u)| == 2 <==> u in {8, 9, 10, 12, 13, 34, 92}
    ensures |Escape(u)| == 1 || |Escape(u)| == 2 || |Escape(u)| == 6
    ensures |Escape(u)| > 1 ==> Escape(u)[0] == 92
    ensures |Escape(u)| == 6 ==>
              Escape(u)[1] == 117 && forall i :: 2 <= i < 6 ==> 48 <= Escape(u)[i] <= 57 || 97 <= Escape(u)[i] <= 102
  {
  }

  /** The three words, letter by letter. */
  lemma WordsAreSpelled()
    ensures NULL == ['n' as int, 'u' as int, 'l' as int, 'l' as int]
    ensures TRUE == ['t' as int, 'r' as int, 'u' as int, 'e' as int]
    ensures FALSE == ['f' as int, 'a' as int, 'l' as int, 's' as int, 'e' as int]
  {
  }

  // ----- reading -----

  datatype Read<+T> = Unreadable | Got(value: T, rest: Text)

  function HexValue(u: Unit): int {
    if 48 <= u <= 57 then u - 48 else if 97 <= u <= 102 then u - 87 else -1
  }

  /** The unit that a backslash and what follows it stand for. */
  function ReadEscape(t: Text): (r: Read<Unit>)
    ensures r.Got? ==> |r.rest| < |t|
  {
    if t == [] then Unreadable
    else if t[0] == 117 then
      if |t| >= 5 && (forall i :: 1 <= i < 5 ==> HexValue(t[i]) >= 0) then
        Got(HexValue(t[1]) * 4096 + HexValue(t[2]) * 256 + HexValue(t[3]) * 16 + HexValue(t[4]), t[5..])
      else Unreadable
    else if t[0] == 98 then Got(8, t[1..])
    else if t[0] == 116 then Got(9, t[1..])
    else if t[0] == 110 then Got(10, t[1..])
    else if t[0] == 102 then Got(12, t[1..])
    else if t[0] == 114 then Got(13, t[1..])
    else Got(t[0], t[1..])
  }

  /** Reads up to and over the closing quote. */
  function ReadString(t: Text): (r: Read<Text>)
    ensures r.Got? ==> |r.rest| < |t|
    decreases |t|
  {
    if t == [] then Unreadable
    else if t[0] == 34 then Got([], t[1..])
    else
      var unit := if t[0] == 92 then ReadEscape(t[1..]) else Got(t[0], t[1..]);
      if unit.Unreadable? then Unreadable
      else
        var rest := ReadString(unit.rest);
        if rest.Unreadable? then Unreadable else Got([unit.value] + rest.value, rest.rest)
  }

  function NumberLength(t: Text): (n: nat)
    ensures n <= |t|
    ensures forall i :: 0 <= i < n ==> NumberUnit(t[i])
    ensures n < |t| ==> !NumberUnit(t[n])
  {
    if t == [] || !NumberUnit(t[0]) then 0 else 1 + NumberLength(t[1..])
  }

  function ReadValue(t: Text): (r: Read<Json>)
    ensures r.Got? ==> |r.rest| < |t|
    decreases |t|, 0
  {
    if t == [] then Unreadable
    else if t[0] == 34 then
      var chars := ReadString(t[1..]);
      if chars.Got? then Got(JString(chars.value), chars.rest) else Unreadable
    else if t[0] == 91 then
      if |t| > 1 && t[1] == 93 then Got(JArray([]), t[2..])
      else
        var items := ReadItems(t[1..]);
        if items.Got? then Got(JArray(items.value), items.rest) else Unreadable
    else if t[0] == 123 then
      if |t| > 1 && t[1] == 125 then Got(JObject([]), t[2..])
      else
        var members := ReadMembers(t[1..]);
        if members.Got? then Got(JObject(members.value), members.rest) else Unreadable
    else if NumberUnit(t[0]) then Got(JNumber(t[..NumberLength(t)]), t[NumberLength(t)..])
    else if NULL <= t then Got(JNull, t[4..])
    else if TRUE <= t then Got(JBool(true), t[4..])
    else if FALSE <= t then Got(JBool(false), t[5..])
    else Unreadable
  }

  /** One item or more, and the closing bracket. */
  function ReadItems(t: Text): (r: Read<seq<Json>>)
    ensures r.Got? ==> |r.rest| < |t|
    decreases |t|, 1
  {
    var first := ReadValue(t);
    if first.Unreadable? || first.rest == [] then Unreadable
    else if first.rest[0] == 93 then Got([first.value], first.rest[1..])
    else if first.rest[0] == 44 then
      var more := ReadItems(first.rest[1..]);
      if more.Got? then Got([first.value] + more.value, more.rest) else Unreadable
    else Unreadable
  }

  /** One member or more, and the closing brace. */
  function ReadMembers(t: Text): (r: Read<seq<Keyed<Json>>>)
    ensures r.Got? ==> |r.rest| < |t|
    decreases |t|, 1
  {
    if t == [] || t[0] != 34 then Unreadable
    else
      var key := ReadString(t[1..]);
      if key.Unreadable? || key.rest == [] || key.rest[0] != 58 then Unreadable
      else
        var first := ReadValue(key.rest[1..]);
        if first.Unreadable? || first.rest == [] then Unreadable
        else if first.rest[0] == 125 then Got([Keyed(key.value, first.value)], first.rest[1..])
        else if first.rest[0] == 44 then
          var more := ReadMembers(first.rest[1..]);
          if more.Got? then Got([Keyed(key.value, first.value)] + more.value, more.rest) else Unreadable
        else Unreadable
  }

  // ----- what is printed is read back -----

  lemma HexReads(n: int)
    requires 0 <= n < 16
    ensures HexValue(HexDigit(n)) == n
  {
  }

  /** What a string reads as, given its first unit. */
  function After(u: Unit, r: Read<Text>): Read<Text> {
    if r.Got? then Got([u] + r.value, r.rest) else Unreadable
  }

  lemma RawReads(u: Unit, x: Text)
    requires u != 34 && u != 92
    ensures ReadString([u] + x) == After(u, ReadString(x))
  {
    assert ([u] + x)[1..] == x;
  }

  lemma EscapedReads(u: Unit, t: Text, x: Text)
    requires ReadEscape(t) == Got(u, x)
    ensures ReadString([92] + t) == After(u, ReadString(x))
  {
    assert ([92] + t)[1..] == t;
  }

  lemma UnicodeReads(u: Unit, x: Text)
    ensures ReadEscape(UnicodeEscape(u)[1..] + x) == Got(u, x)
  {
    HexReads(u / 4096);
    HexReads(u / 256 % 16);
    HexReads(u / 16 % 16);
    HexReads(u % 16);
    var t := UnicodeEscape(u)[1..] + x;
    assert t[5..] == x;
    FourDigits(u);
  }

  lemma FourDigits(u: int)
    ensures u / 4096 * 4096 + u / 256 % 16 * 256 + u / 16 % 16 * 16 + u % 16 == u
  {
    assert u / 16 * 16 + u % 16 == u;
    assert u / 256 * 16 + u / 16 % 16 == u / 16;
    assert u / 4096 * 16 + u / 256 % 16 == u / 256;
  }

  lemma EscapeReads(u: Unit, x: Text)
    ensures ReadString(Escape(u) + x) == After(u, ReadString(x))
  {
    var e := Escape(u);
    if |e| == 1 {
      RawReads(u, x);
    } else {
      var t := e[1..] + x;
      assert e + x == [92] + t;
      if |e| == 6 {
        UnicodeReads(u, x);
      } else {
        assert t[0] == e[1] && t[1..] == x;
      }
      EscapedReads(u, t, x);
    }
  }

  lemma Regroup(p: Text, q: Text, c: Text, a: Text)
    ensures p + q + c + a == p + (q + c + a)
  {
  }

  /** A quoted string is read back, up to its closing quote, whatever follows. */
  lemma {:induction false} QuotedReads(s: Text, a: Text)
    ensures ReadString(EscapeAll(s) + [34] + a) == Got(s, a)
    decreases |s|
  {
    if s == [] {
      assert EscapeAll(s) + [34] + a == [34] + a;
      assert ([34] + a)[1..] == a;
    } else if |s| > 1 && HighSurrogate(s[0]) && LowSurrogate(s[1]) {
      var x := EscapeAll(s[2..]) + [34] + a;
      QuotedReads(s[2..], a);
      PairReads(s[0], s[1], s[2..], x, a);
      Regroup(s[..2], EscapeAll(s[2..]), [34], a);
      assert s[..2] + x == [s[0]] + ([s[1]] + x);
      assert s == [s[0]] + ([s[1]] + s[2..]);
    } else {
      var x := EscapeAll(s[1..]) + [34] + a;
      QuotedReads(s[1..], a);
      EscapeReads(s[0], x);
      Regroup(Escape(s[0]), EscapeAll(s[1..]), [34], a);
      assert s == [s[0]] + s[1..];
    }
  }

  lemma PairReads(high: Unit, low: Unit, s: Text, x: Text, a: Text)
    requires HighSurrogate(high) && LowSurrogate(low) && ReadString(x) == Got(s, a)
    ensures ReadString([high] + ([low] + x)) == Got([high] + ([low] + s), a)
  {
    RawReads(low, x);
    RawReads(high, [low] + x);
  }

  /** Text that cannot lengthen a number it follows. */
  predicate EndsNumbers(a: Text) {
    a == [] || !NumberUnit(a[0])
  }

  lemma {:induction false} NumberReads(text: Text, a: Text)
    requires (forall i :: 0 <= i < |text| ==> NumberUnit(text[i])) && EndsNumbers(a)
    ensures NumberLength(text + a) == |text|
  {
    if text == [] {
      assert text + a == a;
    } else {
      assert (text + a)[1..] == text[1..] + a;
      NumberReads(text[1..], a);
    }
  }

  lemma PrintedNumberReads(text: NumberText, a: Text)
    requires EndsNumbers(a)
    ensures ReadValue(text + a) == Got(JNumber(text), a)
  {
    NumberReads(text, a);
    var t := text + a;
    assert t[0] == text[0] && t[..|text|] == text && t[|text|..] == a;
  }

  lemma LiteralReads(literal: Text, a: Text)
    requires literal in [NULL, TRUE, FALSE]
    ensures ReadValue(literal + a) == Got(if literal == NULL then JNull else JBool(literal == TRUE), a)
  {
    var t := literal + a;
    assert t[0] == literal[0];
    assert t[..|literal|] == literal && t[|literal|..] == a;
  }

  lemma PrintedStringReads(chars: Text, a: Text)
    ensures ReadValue(Quote(chars) + a) == Got(JString(chars), a)
  {
    QuotedReads(chars, a);
    assert Quote(chars) + a == [34] + (EscapeAll(chars) + [34] + a);
    assert ([34] + (EscapeAll(chars) + [34] + a))[1..] == EscapeAll(chars) + [34] + a;
  }

  lemma BracketedReads(items: seq<Json>, x: Text, a: Text)
    requires items == [] ==> x == [93] + a
    requires items != [] ==> x != [] && x[0] != 93 && ReadItems(x) == Got(items, a)
    ensures ReadValue([91] + x) == Got(JArray(items), a)
  {
    assert ([91] + x)[1..] == x;
    if items == [] {
      assert ([91] + x)[2..] == a;
    }
  }

  lemma BracedReads(members: seq<Keyed<Json>>, x: Text, a: Text)
    requires members == [] ==> x == [125] + a
    requires members != [] ==> x != [] && x[0] != 125 && ReadMembers(x) == Got(members, a)
    ensures ReadValue([123] + x) == Got(JObject(members), a)
  {
    assert ([123] + x)[1..] == x;
    if members == [] {
      assert ([123] + x)[2..] == a;
    }
  }

  lemma ItemListReads(first: Json, more: seq<Json>, t: Text, x: Text, a: Text)
    requires ReadValue(t) == Got(first, x)
    requires more == [] ==> x == [93] + a
    requires more != [] ==> x != [] && x[0] == 44 && ReadItems(x[1..]) == Got(more, a)
    ensures ReadItems(t) == Got([first] + more, a)
  {
    if more == [] {
      assert x[0] == 93 && x[1..] == a && [first] + more == [first];
    }
  }

  lemma MemberListReads(first: Keyed<Json>, more: seq<Keyed<Json>>, t: Text, y: Text, x: Text, a: Text)
    requires t != [] && t[0] == 34 && ReadString(t[1..]) == Got(first.key, [58] + y)
    requires ReadValue(y) == Got(first.item, x)
    requires more == [] ==> x == [125] + a
    requires more != [] ==> x != [] && x[0] == 44 && ReadMembers(x[1..]) == Got(more, a)
    ensures ReadMembers(t) == Got([first] + more, a)
  {
    assert ([58] + y)[1..] == y;
    if more == [] {
      assert x[0] == 125 && x[1..] == a && [first] + more == [first];
    }
  }

  /** A printed value begins with a unit that closes nothing. */
  lemma PrintBegins(v: Json)
    ensures Print(v) != [] && Print(v)[0] != 93
  {
  }

  lemma ListBegins(items: seq<Json>)
    requires items != []
    ensures var joined := Join(PrintAll(items));
            joined != [] && joined[0] != 93
  {
    PrintBegins(items[0]);
  }

  lemma MembersBegin(members: seq<Keyed<Json>>)
    requires members != []
    ensures var joined := Join(Parts(PrintEntries(members)));
            joined != [] && joined[0] == 34
  {
  }

  /** Every printed value is read back from the front of a text, and exactly as far as it goes. */
  lemma {:induction false} PrintReads(v: Json, a: Text)
    requires EndsNumbers(a)
    ensures ReadValue(Print(v) + a) == Got(v, a)
    decreases v, 0
  {
    match v
    case JNull => LiteralReads(NULL, a);
    case JBool(value) => LiteralReads(if value then TRUE else FALSE, a);
    case JNumber(text) => PrintedNumberReads(text, a);
    case JString(chars) => PrintedStringReads(chars, a);
    case JArray(items) => PrintedArrayReads(items, a);
    case JObject(members) => PrintedObjectReads(members, a);
  }

  lemma PrintedArrayReads(items: seq<Json>, a: Text)
    ensures ReadValue(Print(JArray(items)) + a) == Got(JArray(items), a)
    decreases items, 2
  {
    var x := Join(PrintAll(items)) + [93] + a;
    assert Print(JArray(items)) + a == [91] + x;
    if items != [] {
      ItemsRead(items, a);
      ListBegins(items);
    }
    BracketedReads(items, x, a);
  }

  lemma PrintedObjectReads(members: seq<Keyed<Json>>, a: Text)
    ensures ReadValue(Print(JObject(members)) + a) == Got(JObject(members), a)
    decreases members, 2
  {
    var x := Join(Parts(PrintEntries(members))) + [125] + a;
    assert Print(JObject(members)) + a == [123] + x;
    if members != [] {
      MembersRead(members, a);
      MembersBegin(members);
    }
    BracedReads(members, x, a);
  }

  lemma ItemsSplit(items: seq<Json>, x: Text, a: Text)
    requires items != []
    requires x == if |items| == 1 then [93] + a else [44] + (Join(PrintAll(items[1..])) + [93] + a)
    ensures Join(PrintAll(items)) + [93] + a == Print(items[0]) + x
  {
    JoinComesApart(PrintAll(items), [93], a);
    assert PrintAll(items)[1..] == PrintAll(items[1..]);
  }

  lemma {:induction false} ItemsRead(items: seq<Json>, a: Text)
    requires items != []
    ensures ReadItems(Join(PrintAll(items)) + [93] + a) == Got(items, a)
    decreases items, 1
  {
    var t := Join(PrintAll(items)) + [93] + a;
    var x := if |items| == 1 then [93] + a else [44] + (Join(PrintAll(items[1..])) + [93] + a);
    PrintReads(items[0], x);
    if |items| > 1 {
      ItemsRead(items[1..], a);
      assert x[1..] == Join(PrintAll(items[1..])) + [93] + a;
    }
    ItemsSplit(items, x, a);
    ItemListReads(items[0], items[1..], t, x, a);
    assert items == [items[0]] + items[1..];
  }

  /** Joined parts begin with the first of them; the rest follows its comma. */
  lemma JoinComesApart(parts: seq<Text>, close: Text, a: Text)
    requires parts != []
    ensures Join(parts) + close + a
         == parts[0] + if |parts| == 1 then close + a else [44] + (Join(parts[1..]) + close + a)
  {
    if |parts| > 1 {
      Nest(parts[0], [44], Join(parts[1..]), close, a);
    } else {
      assert parts[0] + close + a == parts[0] + (close + a);
    }
  }

  lemma Nest(p: Text, comma: Text, rest: Text, close: Text, a: Text)
    ensures p + comma + rest + close + a == p + (comma + (rest + close + a))
  {
  }

  lemma {:induction false} MembersRead(members: seq<Keyed<Json>>, a: Text)
    requires members != []
    ensures ReadMembers(Join(Parts(PrintEntries(members))) + [125] + a) == Got(members, a)
    decreases members, 1
  {
    var parts := Parts(PrintEntries(members));
    PartsOfMembers(members);
    var x := if |members| == 1 then [125] + a else [44] + (Join(parts[1..]) + [125] + a);
    PrintReads(members[0].item, x);
    if |members| > 1 {
      MembersRead(members[1..], a);
      assert x[1..] == Join(parts[1..]) + [125] + a;
    }
    FirstMemberReads(members[0], members[1..], parts, x, a);
    assert members == [members[0]] + members[1..];
  }

  lemma FirstMemberReads(first: Keyed<Json>, more: seq<Keyed<Json>>, parts: seq<Text>, x: Text, a: Text)
    requires parts != [] && parts[0] == [34] + EscapeAll(first.key) + [34] + [58] + Print(first.item)
    requires |parts| == 1 <==> more == []
    requires x == if more == [] then [125] + a else [44] + (Join(parts[1..]) + [125] + a)
    requires ReadValue(Print(first.item) + x) == Got(first.item, x)
    requires more != [] ==> ReadMembers(x[1..]) == Got(more, a)
    ensures ReadMembers(Join(parts) + [125] + a) == Got([first] + more, a)
  {
    var y := Print(first.item) + x;
    QuotedReads(first.key, [58] + y);
    MembersSplit(EscapeAll(first.key), Print(first.item), parts, x, a);
    MemberListReads(first, more, Join(parts) + [125] + a, y, x, a);
  }

  /** Where the text of a list of members comes apart: the key, its colon, the value and the rest. */
  lemma MembersSplit(key: Text, text: Text, parts: seq<Text>, x: Text, a: Text)
    requires parts != [] && parts[0] == [34] + key + [34] + [58] + text
    requires x == if |parts| == 1 then [125] + a else [44] + (Join(parts[1..]) + [125] + a)
    ensures var t := Join(parts) + [125] + a;
            t != [] && t[0] == 34 && t[1..] == key + [34] + ([58] + (text + x))
  {
    JoinComesApart(parts, [125], a);
    PartComesApart(key, text, x);
  }

  lemma PartsOfMembers(members: seq<Keyed<Json>>)
    requires members != []
    ensures var parts := Parts(PrintEntries(members));
            && parts != [] && (|parts| == 1 <==> |members| == 1)
            && parts[0] == [34] + EscapeAll(members[0].key) + [34] + [58] + Print(members[0].item)
            && parts[1..] == Parts(PrintEntries(members[1..]))
  {
    var entries := PrintEntries(members);
    assert entries[1..] == PrintEntries(members[1..]);
  }

  lemma PartComesApart(key: Text, text: Text, x: Text)
    ensures var t := [34] + key + [34] + [58] + text + x;
            t[0] == 34 && t[1..] == key + [34] + ([58] + (text + x))
  {
  }

  /** So no two values print the same text. */
  lemma PrintIsUniquelyDecodable(v: Json, w: Json)
    ensures Print(v) == Print(w) <==> v == w
    ensures ReadValue(Print(v)) == Got(v, [])
  {
    PrintReads(v, []);
    PrintReads(w, []);
    assert Print(v) + [] == Print(v) && Print(w) + [] == Print(w);
  }
}
