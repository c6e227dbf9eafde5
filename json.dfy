/** JSON values and their text form (RFC 8259), as far as this program uses
    them: `JSON.stringify` with no indentation and `JSON.parse`.

    Numbers are integers here.  Objects are association lists in property
    order.  `Parse` undoes `Stringify` for every value whose objects have
    distinct keys (`RoundTrip`); that is the one fact about JSON the storage
    layer relies on, and here it is proved rather than taken on trust. */
module Json {
  import opened Base
  import opened Assoc

  datatype Value =
    | Null
    | Bool(b: bool)
    | Num(n: int)
    | Str(s: string)
    | Arr(items: seq<Value>)
    | Obj(fields: seq<Entry<Value>>)

  /** JavaScript truthiness of a parsed value: `null`, `false`, `0` and `""`
      are falsy, everything else (including `[]` and `{}`) is truthy. */
  predicate Truthy(v: Value)
  {
    match v
    case Null => false
    case Bool(b) => b
    case Num(n) => n != 0
    case Str(s) => s != ""
    case _ => true
  }

  /** Property access `v.key`: only objects have own properties that a JSON
      document can give; on anything else the access yields `undefined`. */
  function Prop(v: Value, key: string): Option<Value>
  {
    if v.Obj? then Lookup(v.fields, key) else None
  }

  /** Every value `JSON.parse` can return: objects never repeat a key. */
  predicate Valid(v: Value)
  {
    match v
    case Arr(items) => forall i | 0 <= i < |items| :: Valid(items[i])
    case Obj(fields) => DistinctKeys(fields) && forall i | 0 <= i < |fields| :: Valid(fields[i].value)
    case _ => true
  }

  // ---------------------------------------------------------------------
  // Writing: JSON.stringify(v)
  // ---------------------------------------------------------------------

  function DigitChar(d: nat): char
    requires d < 10
  {
    ('0' as int + d) as char
  }

  predicate IsDigit(c: char) { '0' <= c <= '9' }

  function DigitValue(c: char): nat
    requires IsDigit(c)
  {
    c as int - '0' as int
  }

  /** Decimal digits of `n`, most significant first, no leading zero. */
  function Digits(n: nat): (r: string)
    ensures |r| > 0 && forall i | 0 <= i < |r| :: IsDigit(r[i])
    ensures n > 0 ==> r[0] != '0'
    ensures n == 0 ==> r == "0"
  {
    if n < 10 then [DigitChar(n)] else Digits(n / 10) + [DigitChar(n % 10)]
  }

  function NumberText(n: int): string
  {
    if n < 0 then "-" + Digits(-n) else Digits(n)
  }

  function HexLower(d: nat): char
    requires d < 16
  {
    if d < 10 then DigitChar(d) else ('a' as int + d - 10) as char
  }

  /** The escape `JSON.stringify` writes for one character of a string. */
  function EscapeChar(c: char): string
  {
    if c == '"' then "\\\""
    else if c == '\\' then "\\\\"
    else if c == '\U{8}' then "\\b"
    else if c == '\t' then "\\t"
    else if c == '\n' then "\\n"
    else if c == '\U{c}' then "\\f"
    else if c == '\r' then "\\r"
    else if (c as int) < 0x20 then "\\u00" + [HexLower(c as int / 16), HexLower(c as int % 16)]
    else [c]
  }

  function Escape(s: string): string
  {
    if s == [] then [] else EscapeChar(s[0]) + Escape(s[1..])
  }

  function Quote(s: string): string
  {
    "\"" + Escape(s) + "\""
  }

  function Stringify(v: Value): string
    decreases v
  {
    match v
    case Null => "null"
    case Bool(b) => if b then "true" else "false"
    case Num(n) => NumberText(n)
    case Str(s) => Quote(s)
    case Arr(items) => "[" + ItemsText(items) + "]"
    case Obj(fields) => "{" + MembersText(fields) + "}"
  }

  function ItemsText(items: seq<Value>): string
    decreases items
  {
    if items == [] then ""
    else if |items| == 1 then Stringify(items[0])
    else Stringify(items[0]) + "," + ItemsText(items[1..])
  }

  function MembersText(fs: seq<Entry<Value>>): string
    decreases fs
  {
    if fs == [] then ""
    else if |fs| == 1 then Quote(fs[0].key) + ":" + Stringify(fs[0].value)
    else Quote(fs[0].key) + ":" + Stringify(fs[0].value) + "," + MembersText(fs[1..])
  }

  // ---------------------------------------------------------------------
  // Reading: JSON.parse(text)
  // ---------------------------------------------------------------------

  predicate IsWs(c: char) { c == ' ' || c == '\t' || c == '\n' || c == '\r' }

  function SkipWs(s: string): (r: string)
    ensures |r| <= |s|
    ensures r == [] || !IsWs(r[0])
  {
    if s != [] && IsWs(s[0]) then SkipWs(s[1..]) else s
  }

  predicate IsHex(c: char) { IsDigit(c) || 'a' <= c <= 'f' || 'A' <= c <= 'F' }

  function HexValue(c: char): (r: nat)
    requires IsHex(c)
    ensures r < 16
  {
    if IsDigit(c) then DigitValue(c)
    else if 'a' <= c <= 'f' then c as int - 'a' as int + 10
    else c as int - 'A' as int + 10
  }

  /** The character a two-character escape `\x` stands for. */
  function SimpleEscape(c: char): Option<char>
  {
    if c == '"' then Some('"')
    else if c == '\\' then Some('\\')
    else if c == '/' then Some('/')
    else if c == 'b' then Some('\U{8}')
    else if c == 'f' then Some('\U{c}')
    else if c == 'n' then Some('\n')
    else if c == 'r' then Some('\r')
    else if c == 't' then Some('\t')
    else None
  }

  /** The characters of a string literal whose opening quote is already
      consumed, and the text after its closing quote. */
  function ParseChars(s: string): (r: Option<(string, string)>)
    ensures r.Some? ==> |r.value.1| < |s|
  {
    if s == [] then None
    else if s[0] == '"' then Some(([], s[1..]))
    else if s[0] == '\\' then
      if |s| < 2 then None
      else if s[1] == 'u' then
        if |s| < 6 || !IsHex(s[2]) || !IsHex(s[3]) || !IsHex(s[4]) || !IsHex(s[5]) then None
        else
          var code := HexValue(s[2]) * 4096 + HexValue(s[3]) * 256 + HexValue(s[4]) * 16 + HexValue(s[5]);
          if 0xD800 <= code < 0xE000 then None
          else
            match ParseChars(s[6..])
            case None => None
            case Some((t, rest)) => Some(([code as char] + t, rest))
      else
        match SimpleEscape(s[1])
        case None => None
        case Some(c) =>
          match ParseChars(s[2..])
          case None => None
          case Some((t, rest)) => Some(([c] + t, rest))
    else if (s[0] as int) < 0x20 then None
    else
      match ParseChars(s[1..])
      case None => None
      case Some((t, rest)) => Some(([s[0]] + t, rest))
  }

  /** Greedily reads decimal digits onto the accumulator `acc`. */
  function ParseDigits(s: string, acc: nat): (r: (nat, string))
    ensures |r.1| <= |s|
  {
    if s != [] && IsDigit(s[0]) then ParseDigits(s[1..], acc * 10 + DigitValue(s[0])) else (acc, s)
  }

  /** An integer: optional minus sign, then `0` or a digit run without a
      leading zero. */
  function ParseNumber(t: string): (r: Option<(Value, string)>)
    ensures r.Some? ==> |r.value.1| < |t|
  {
    if t == [] then None
    else
      var neg := t[0] == '-';
      var u := if neg then t[1..] else t;
      if u == [] || !IsDigit(u[0]) then None
      else if u[0] == '0' then Some((Num(0), u[1..]))
      else
        var (n, rest) := ParseDigits(u[1..], DigitValue(u[0]));
        var k: int := n;
        Some((Num(if neg then -k else k), rest))
  }

  function Keyword(t: string, word: string, v: Value): (r: Option<(Value, string)>)
    requires |word| > 0
    ensures r.Some? ==> |r.value.1| < |t| && r.value.0 == v
  {
    if |word| <= |t| && t[..|word|] == word then Some((v, t[|word|..])) else None
  }

  /** One value after optional white space, and the text after it. */
  function ParseValue(s: string): (r: Option<(Value, string)>)
    ensures r.Some? ==> |r.value.1| < |s| && Valid(r.value.0)
    decreases |s|, 0
  {
    var t := SkipWs(s);
    if t == [] then None
    else if t[0] == 'n' then Keyword(t, "null", Null)
    else if t[0] == 't' then Keyword(t, "true", Bool(true))
    else if t[0] == 'f' then Keyword(t, "false", Bool(false))
    else if t[0] == '"' then
      match ParseChars(t[1..])
      case None => None
      case Some((str, rest)) => Some((Str(str), rest))
    else if t[0] == '[' then ParseArray(t[1..])
    else if t[0] == '{' then ParseObject(t[1..])
    else ParseNumber(t)
  }

  /** An array whose `[` is already consumed. */
  function ParseArray(s: string): (r: Option<(Value, string)>)
    ensures r.Some? ==> |r.value.1| < |s| && Valid(r.value.0)
    decreases |s|, 2
  {
    var t := SkipWs(s);
    if t != [] && t[0] == ']' then Some((Arr([]), t[1..]))
    else
      match ParseElements(s)
      case None => None
      case Some((items, rest)) => Some((Arr(items), rest))
  }

  /** `value (, value)* ]` */
  function ParseElements(s: string): (r: Option<(seq<Value>, string)>)
    ensures r.Some? ==> |r.value.1| < |s| && forall i | 0 <= i < |r.value.0| :: Valid(r.value.0[i])
    decreases |s|, 1
  {
    match ParseValue(s)
    case None => None
    case Some((v, rest)) =>
      var t := SkipWs(rest);
      if t == [] then None
      else if t[0] == ']' then Some(([v], t[1..]))
      else if t[0] == ',' then
        match ParseElements(t[1..])
        case None => None
        case Some((vs, rest')) => Some(([v] + vs, rest'))
      else None
  }

  /** An object whose `{` is already consumed.  A repeated key keeps its
      first position and takes its last value, as `JSON.parse` does. */
  function ParseObject(s: string): (r: Option<(Value, string)>)
    ensures r.Some? ==> |r.value.1| < |s| && Valid(r.value.0)
    decreases |s|, 2
  {
    var t := SkipWs(s);
    if t != [] && t[0] == '}' then Some((Obj([]), t[1..]))
    else
      match ParseMembers(s)
      case None => None
      case Some((raw, rest)) =>
        var fields := PutAll([], raw);
        assert forall i | 0 <= i < |fields| :: Valid(fields[i].value) by {
          forall i | 0 <= i < |fields| ensures Valid(fields[i].value) {
            assert fields[i] in raw;
          }
        }
        Some((Obj(fields), rest))
  }

  /** `"key" : value (, "key" : value)* }` */
  function ParseMembers(s: string): (r: Option<(seq<Entry<Value>>, string)>)
    ensures r.Some? ==> |r.value.1| < |s| && forall e | e in r.value.0 :: Valid(e.value)
    decreases |s|, 1
  {
    var t := SkipWs(s);
    if t == [] || t[0] != '"' then None
    else
      match ParseChars(t[1..])
      case None => None
      case Some((key, r1)) =>
        var t1 := SkipWs(r1);
        if t1 == [] || t1[0] != ':' then None
        else
          match ParseValue(t1[1..])
          case None => None
          case Some((v, r2)) =>
            var t2 := SkipWs(r2);
            if t2 == [] then None
            else if t2[0] == '}' then Some(([Entry(key, v)], t2[1..]))
            else if t2[0] == ',' then
              match ParseMembers(t2[1..])
              case None => None
              case Some((more, rest)) => Some(([Entry(key, v)] + more, rest))
            else None
  }

  /** `JSON.parse(text)`: one value, surrounded by nothing but white space;
      `None` is the `SyntaxError` it throws otherwise. */
  function Parse(text: string): (r: Option<Value>)
    ensures r.Some? ==> Valid(r.value)
  {
    match ParseValue(text)
    case None => None
    case Some((v, rest)) => if SkipWs(rest) == [] then Some(v) else None
  }

  // ---------------------------------------------------------------------
  // The round trip
  // ---------------------------------------------------------------------

  /** What may follow a value without being read as part of it: only a
      number could run on, into a following digit. */
  predicate Delimited(rest: string)
  {
    rest == [] || !IsDigit(rest[0])
  }

  lemma SkipWsNone(s: string)
    requires s == [] || !IsWs(s[0])
    ensures SkipWs(s) == s
  {
  }

  lemma {:induction false} StringifyStart(v: Value)
    ensures |Stringify(v)| > 0
    ensures Stringify(v)[0] in {'n', 't', 'f', '"', '[', '{', '-'} || IsDigit(Stringify(v)[0])
  {
    match v
    case Num(n) =>
      if n < 0 { } else { assert Stringify(v) == Digits(n); }
    case _ =>
  }

  lemma {:induction false} ParseDigitsRun(ds: string, rest: string, acc: nat)
    requires forall i | 0 <= i < |ds| :: IsDigit(ds[i])
    ensures ParseDigits(ds + rest, acc) == ParseDigits(rest, DigitsValue(ds, acc))
  {
    if ds == [] {
      assert ds + rest == rest;
    } else {
      assert (ds + rest)[1..] == ds[1..] + rest;
      ParseDigitsRun(ds[1..], rest, acc * 10 + DigitValue(ds[0]));
    }
  }

  /** The number a run of digits denotes, read onto `acc`. */
  function DigitsValue(ds: string, acc: nat): nat
    requires forall i | 0 <= i < |ds| :: IsDigit(ds[i])
  {
    if ds == [] then acc else DigitsValue(ds[1..], acc * 10 + DigitValue(ds[0]))
  }

  lemma {:induction false} DigitsValueSnoc(ds: string, d: char, acc: nat)
    requires forall i | 0 <= i < |ds| :: IsDigit(ds[i])
    requires IsDigit(d)
    ensures DigitsValue(ds + [d], acc) == DigitsValue(ds, acc) * 10 + DigitValue(d)
  {
    if ds != [] {
      assert (ds + [d])[1..] == ds[1..] + [d];
      DigitsValueSnoc(ds[1..], d, acc * 10 + DigitValue(ds[0]));
    }
  }

  lemma {:induction false} DigitsValueOfDigits(n: nat)
    ensures DigitsValue(Digits(n), 0) == n
  {
    if n >= 10 {
      DigitsValueOfDigits(n / 10);
      DigitsValueSnoc(Digits(n / 10), DigitChar(n % 10), 0);
    }
  }

  /** Reading back the digits of `m`: the first digit, then the run after it. */
  lemma DigitsRead(m: nat, rest: string)
    requires Delimited(rest)
    ensures var u := Digits(m) + rest;
      && IsDigit(u[0])
      && (m == 0 <==> u[0] == '0')
      && (m == 0 ==> u[1..] == rest)
      && (m > 0 ==> ParseDigits(u[1..], DigitValue(u[0])) == (m, rest))
  {
    var ds := Digits(m);
    var u := ds + rest;
    assert u[0] == ds[0];
    if m == 0 {
      assert u[1..] == rest;
    } else {
      assert u[1..] == ds[1..] + rest;
      ParseDigitsRun(ds[1..], rest, DigitValue(ds[0]));
      assert DigitsValue(ds[1..], DigitValue(ds[0])) == DigitsValue(ds, 0);
      DigitsValueOfDigits(m);
    }
  }

  /** An unsigned run of digits reads back as its number. */
  lemma UnsignedRead(m: nat, rest: string)
    requires Delimited(rest)
    ensures ParseNumber(Digits(m) + rest) == Some((Num(m), rest))
  {
    DigitsRead(m, rest);
  }

  /** A minus sign and a run of digits read back as the negative number. */
  lemma NegativeRead(m: nat, rest: string)
    requires Delimited(rest) && m > 0
    ensures ParseNumber(['-'] + (Digits(m) + rest)) == Some((Num(-(m as int)), rest))
  {
    var u := Digits(m) + rest;
    DigitsRead(m, rest);
    var t := ['-'] + u;
    assert t[0] == '-' && t[1..] == u;
  }

  lemma {:induction false} NumberRoundTrip(n: int, rest: string)
    requires Delimited(rest)
    ensures ParseNumber(NumberText(n) + rest) == Some((Num(n), rest))
  {
    if n < 0 {
      NegativeRead(-n, rest);
      assert NumberText(n) + rest == ['-'] + (Digits(-n) + rest);
    } else {
      UnsignedRead(n, rest);
    }
  }

  lemma HexLowerValue(d: nat)
    requires d < 16
    ensures IsHex(HexLower(d)) && HexValue(HexLower(d)) == d
  {
  }

  lemma {:induction false} EscapeCharRoundTrip(c: char, tail: string)
    ensures ParseChars(EscapeChar(c) + tail) ==
      match ParseChars(tail)
      case None => None
      case Some((t, rest)) => Some(([c] + t, rest))
  {
    var e := EscapeChar(c);
    if c == '"' || c == '\\' || c == '\U{8}' || c == '\t' || c == '\n' || c == '\U{c}' || c == '\r' {
      assert |e| == 2 && (e + tail)[2..] == tail;
    } else if (c as int) < 0x20 {
      var h1, h2 := c as int / 16, c as int % 16;
      HexLowerValue(h1);
      HexLowerValue(h2);
      assert e == ['\\', 'u', '0', '0', HexLower(h1), HexLower(h2)];
      assert (e + tail)[6..] == tail;
    } else {
      assert (e + tail)[1..] == tail;
    }
  }

  lemma {:induction false} StringRoundTrip(s: string, rest: string)
    ensures ParseChars(Escape(s) + "\"" + rest) == Some((s, rest))
  {
    if s == [] {
      assert Escape(s) + "\"" + rest == "\"" + rest;
    } else {
      var tail := Escape(s[1..]) + "\"" + rest;
      assert Escape(s) + "\"" + rest == EscapeChar(s[0]) + tail;
      StringRoundTrip(s[1..], rest);
      EscapeCharRoundTrip(s[0], tail);
      assert [s[0]] + s[1..] == s;
    }
  }

  lemma {:induction false} RoundTripValue(v: Value, rest: string)
    requires Valid(v) && Delimited(rest)
    ensures ParseValue(Stringify(v) + rest) == Some((v, rest))
    decreases v, 3
  {
    StringifyStart(v);
    SkipWsNone(Stringify(v) + rest);
    match v
    case Null => KeywordRead("null", v, rest);
    case Bool(b) => KeywordRead(if b then "true" else "false", v, rest);
    case Num(n) => NumberRoundTrip(n, rest);
    case Str(s) =>
      var text := Stringify(v) + rest;
      assert text[1..] == Escape(s) + "\"" + rest;
      StringRoundTrip(s, rest);
    case Arr(items) => RoundTripArr(v, rest);
    case Obj(fields) => RoundTripObj(v, rest);
  }

  lemma KeywordRead(word: string, v: Value, rest: string)
    requires |word| > 0 && Stringify(v) == word
    ensures Keyword(Stringify(v) + rest, word, v) == Some((v, rest))
  {
    var text := word + rest;
    assert text[..|word|] == word && text[|word|..] == rest;
  }

  lemma ValueOpens(s: string)
    requires s != [] && (s[0] == '[' || s[0] == '{')
    ensures s[0] == '[' ==> ParseValue(s) == ParseArray(s[1..])
    ensures s[0] == '{' ==> ParseValue(s) == ParseObject(s[1..])
  {
    SkipWsNone(s);
  }

  lemma ArrayBody(s: string)
    requires s != [] && !IsWs(s[0])
    ensures s[0] == ']' ==> ParseArray(s) == Some((Arr([]), s[1..]))
    ensures s[0] != ']' && ParseElements(s).Some? ==>
      ParseArray(s) == Some((Arr(ParseElements(s).value.0), ParseElements(s).value.1))
  {
    SkipWsNone(s);
  }

  lemma ObjectBody(s: string)
    requires s != [] && !IsWs(s[0])
    ensures s[0] == '}' ==> ParseObject(s) == Some((Obj([]), s[1..]))
    ensures s[0] != '}' && ParseMembers(s).Some? ==>
      ParseObject(s) == Some((Obj(PutAll([], ParseMembers(s).value.0)), ParseMembers(s).value.1))
  {
    SkipWsNone(s);
  }

  lemma {:induction false} RoundTripArr(v: Value, rest: string)
    requires v.Arr? && Valid(v) && Delimited(rest)
    ensures ParseValue(Stringify(v) + rest) == Some((v, rest))
    decreases v, 2
  {
    var text := Stringify(v) + rest;
    var inner := ItemsText(v.items) + "]" + rest;
    assert text == "[" + inner;
    assert text[1..] == inner;
    ValueOpens(text);
    ArrayInner(v, rest);
  }

  lemma {:induction false} ArrayInner(v: Value, rest: string)
    requires v.Arr? && Valid(v) && Delimited(rest)
    ensures ParseArray(ItemsText(v.items) + "]" + rest) == Some((v, rest))
    decreases v, 1
  {
    var inner := ItemsText(v.items) + "]" + rest;
    if v.items == [] {
      assert inner == "]" + rest;
      ArrayBody(inner);
      assert inner[1..] == rest;
    } else {
      assert ParseElements(inner) == Some((v.items, rest)) by {
        RoundTripItems(v, 0, rest);
        assert v.items[0..] == v.items;
      }
      ItemsTextStart(v.items, rest);
      ArrayBody(inner);
    }
  }

  lemma {:induction false} RoundTripObj(v: Value, rest: string)
    requires v.Obj? && Valid(v) && Delimited(rest)
    ensures ParseValue(Stringify(v) + rest) == Some((v, rest))
    decreases v, 2
  {
    var text := Stringify(v) + rest;
    var inner := MembersText(v.fields) + "}" + rest;
    assert text == "{" + inner;
    assert text[1..] == inner;
    ValueOpens(text);
    ObjectInner(v, rest);
  }

  lemma {:induction false} ObjectInner(v: Value, rest: string)
    requires v.Obj? && Valid(v) && Delimited(rest)
    ensures ParseObject(MembersText(v.fields) + "}" + rest) == Some((v, rest))
    decreases v, 1
  {
    var inner := MembersText(v.fields) + "}" + rest;
    if v.fields == [] {
      assert inner == "}" + rest;
      ObjectBody(inner);
      assert inner[1..] == rest;
    } else {
      assert ParseMembers(inner) == Some((v.fields, rest)) by {
        RoundTripMembers(v, 0, rest);
        assert v.fields[0..] == v.fields;
      }
      MembersTextStart(v.fields, rest);
      ObjectBody(inner);
      assert PutAll([], v.fields) == v.fields by {
        assert [] + v.fields == v.fields;
        PutAllFresh([], v.fields);
      }
    }
  }

  /** A non-empty list of elements does not start with white space. */
  lemma ItemsTextStart(items: seq<Value>, rest: string)
    requires items != []
    ensures var t := ItemsText(items) + "]" + rest; t != [] && !IsWs(t[0])
  {
    StringifyStart(items[0]);
    assert (ItemsText(items) + "]" + rest)[0] == Stringify(items[0])[0];
  }

  /** A non-empty list of members starts with the quote of its first key. */
  lemma MembersTextStart(fs: seq<Entry<Value>>, rest: string)
    requires fs != []
    ensures var t := MembersText(fs) + "}" + rest; t != [] && t[0] == '"'
  {
  }

  /** The last element, then `]`. */
  lemma ElementsLast(x: Value, rest: string)
    requires ParseValue(Stringify(x) + ("]" + rest)) == Some((x, "]" + rest))
    ensures ParseElements(Stringify(x) + ("]" + rest)) == Some(([x], rest))
  {
    SkipWsNone("]" + rest);
  }

  /** One element, then `,` and the elements after it. */
  lemma ElementsStep(x: Value, tail: string, xs: seq<Value>, rest: string)
    requires ParseValue(Stringify(x) + ("," + tail)) == Some((x, "," + tail))
    requires ParseElements(tail) == Some((xs, rest))
    ensures ParseElements(Stringify(x) + ("," + tail)) == Some(([x] + xs, rest))
  {
    SkipWsNone("," + tail);
    assert ("," + tail)[1..] == tail;
  }

  /** The elements of `v` from index `i` on, followed by `]`. */
  lemma {:induction false} RoundTripItems(v: Value, i: nat, rest: string)
    requires v.Arr? && Valid(v) && i < |v.items|
    ensures ParseElements(ItemsText(v.items[i..]) + "]" + rest) == Some((v.items[i..], rest))
    decreases v, 0, |v.items| - i, 1
  {
    if i + 1 == |v.items| {
      LastItem(v, i, rest);
    } else {
      NextItem(v, i, rest);
    }
  }

  lemma {:induction false} LastItem(v: Value, i: nat, rest: string)
    requires v.Arr? && Valid(v) && i + 1 == |v.items|
    ensures ParseElements(ItemsText(v.items[i..]) + "]" + rest) == Some((v.items[i..], rest))
    decreases v, 0, |v.items| - i, 0
  {
    var x := v.items[i];
    assert v.items[i..] == [x];
    assert ItemsText([x]) + "]" + rest == Stringify(x) + ("]" + rest);
    RoundTripValue(x, "]" + rest);
    ElementsLast(x, rest);
  }

  lemma {:induction false} NextItem(v: Value, i: nat, rest: string)
    requires v.Arr? && Valid(v) && i + 1 < |v.items|
    ensures ParseElements(ItemsText(v.items[i..]) + "]" + rest) == Some((v.items[i..], rest))
    decreases v, 0, |v.items| - i, 0
  {
    var items := v.items[i..];
    var x := v.items[i];
    var after := v.items[i + 1..];
    assert items == [x] + after && items[1..] == after;
    var tail := ItemsText(after) + "]" + rest;
    assert ItemsText(items) + "]" + rest == Stringify(x) + ("," + tail);
    RoundTripValue(x, "," + tail);
    RoundTripItems(v, i + 1, rest);
    ElementsStep(x, tail, after, rest);
  }

  lemma MemberStep(s: string, key: string, r1: string, val: Value, r2: string)
    requires s != [] && s[0] == '"' && ParseChars(s[1..]) == Some((key, r1))
    requires r1 != [] && r1[0] == ':' && ParseValue(r1[1..]) == Some((val, r2))
    requires r2 != [] && (r2[0] == '}' || r2[0] == ',')
    ensures r2[0] == '}' ==> ParseMembers(s) == Some(([Entry(key, val)], r2[1..]))
    ensures r2[0] == ',' && ParseMembers(r2[1..]).Some? ==>
      ParseMembers(s) == Some(([Entry(key, val)] + ParseMembers(r2[1..]).value.0, ParseMembers(r2[1..]).value.1))
  {
    SkipWsNone(s);
    SkipWsNone(r1);
    SkipWsNone(r2);
  }

  /** What follows the first member's value in `MembersText(fs) + "}" + rest`. */
  function MemberAfter(fs: seq<Entry<Value>>, rest: string): string
    requires fs != []
  {
    if |fs| == 1 then "}" + rest else "," + (MembersText(fs[1..]) + "}" + rest)
  }

  lemma MemberShape(fs: seq<Entry<Value>>, rest: string)
    requires fs != []
    ensures MembersText(fs) + "}" + rest
         == "\"" + (Escape(fs[0].key) + "\"" + (":" + (Stringify(fs[0].value) + MemberAfter(fs, rest))))
  {
    var k, val := Escape(fs[0].key), Stringify(fs[0].value);
    var after := MemberAfter(fs, rest);
    if |fs| == 1 {
      calc {
        MembersText(fs) + "}" + rest;
        ("\"" + k + "\"") + ":" + val + "}" + rest;
        { AppendAssoc("\"" + k + "\"" + ":" + val, "}", rest); }
        ("\"" + k + "\"") + ":" + val + ("}" + rest);
      }
    } else {
      calc {
        MembersText(fs) + "}" + rest;
        ("\"" + k + "\"") + ":" + val + "," + MembersText(fs[1..]) + "}" + rest;
        { AppendAssoc("\"" + k + "\"" + ":" + val + "," + MembersText(fs[1..]), "}", rest);
          AppendAssoc("\"" + k + "\"" + ":" + val + ",", MembersText(fs[1..]), "}" + rest);
          AppendAssoc("\"" + k + "\"" + ":" + val, ",", MembersText(fs[1..]) + "}" + rest); }
        ("\"" + k + "\"") + ":" + val + after;
      }
    }
    calc {
      ("\"" + k + "\"") + ":" + val + after;
      { AppendAssoc("\"" + k + "\"" + ":", val, after); }
      ("\"" + k + "\"") + ":" + (val + after);
      { AppendAssoc("\"" + k + "\"", ":", val + after); }
      ("\"" + k + "\"") + (":" + (val + after));
      { AppendAssoc("\"" + k, "\"", ":" + (val + after));
        AppendAssoc("\"", k, "\"" + (":" + (val + after)));
        AppendAssoc(k, "\"", ":" + (val + after)); }
      "\"" + (k + "\"" + (":" + (val + after)));
    }
  }

  lemma AppendAssoc<T>(a: seq<T>, b: seq<T>, c: seq<T>)
    ensures a + b + c == a + (b + c)
  {
  }

  /** The members of `v` from index `i` on, followed by `}`. */
  lemma {:induction false} RoundTripMembers(v: Value, i: nat, rest: string)
    requires v.Obj? && Valid(v) && i < |v.fields|
    ensures ParseMembers(MembersText(v.fields[i..]) + "}" + rest) == Some((v.fields[i..], rest))
    decreases v, 0, |v.fields| - i
  {
    var fs := v.fields[i..];
    var e := fs[0];
    assert e == v.fields[i];
    var more := MembersText(fs[1..]) + "}" + rest;
    var after := MemberAfter(fs, rest);
    var r1 := ":" + (Stringify(e.value) + after);
    var text := MembersText(fs) + "}" + rest;
    MemberShape(fs, rest);
    assert ParseChars(text[1..]) == Some((e.key, r1)) by {
      assert text[1..] == Escape(e.key) + "\"" + r1;
      StringRoundTrip(e.key, r1);
    }
    assert ParseValue(r1[1..]) == Some((e.value, after)) by {
      assert r1[1..] == Stringify(e.value) + after;
      RoundTripValue(e.value, after);
    }
    MemberStep(text, e.key, r1, e.value, after);
    if |fs| == 1 {
      assert [e] == fs;
    } else {
      assert after[1..] == more;
      assert ParseMembers(more) == Some((fs[1..], rest)) by {
        assert fs[1..] == v.fields[i + 1..];
        RoundTripMembers(v, i + 1, rest);
      }
      assert [e] + fs[1..] == fs;
    }
  }

  /** `JSON.parse(JSON.stringify(v))` gives `v` back. */
  lemma RoundTrip(v: Value)
    requires Valid(v)
    ensures Parse(Stringify(v)) == Some(v)
  {
    RoundTripValue(v, []);
    assert Stringify(v) + [] == Stringify(v);
  }

  /** Two valid values with the same text are the same value. */
  lemma StringifyInjective(v: Value, w: Value)
    requires Valid(v) && Valid(w) && Stringify(v) == Stringify(w)
    ensures v == w
  {
    RoundTrip(v);
    RoundTrip(w);
  }
}
