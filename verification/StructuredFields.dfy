/**
 The Structured Field subset of tpt-http-sig/src/sf.rs: serializers, what the parsers make of a text, and that
 parsing undoes serializing. A text is a sequence of characters, one per byte.
 */
module StructuredFields {
  import opened BigEndian
  import opened Decimal
  import opened Sequences
  import opened Wrappers

  datatype Value = Int(n: int) | Str(s: string) | Bool(b: bool)

  datatype Param = Param(name: string, value: Value)

  datatype Item = Item(name: string, params: seq<Param>)

  datatype InnerList = InnerList(items: seq<Item>, params: seq<Param>)

  datatype Member = ListMember(list: InnerList) | BytesMember(bytes: seq<byte>)

  datatype Entry = Entry(key: string, member: Member)

  /** A value and the text after it, or an error. */
  datatype Parsed<+T> = Ok(value: T, rest: string) | Err

  /** The base64 of a foreign library. */
  datatype Base64 = Base64(encode: seq<byte> -> string, decode: string -> Option<seq<byte>>)
  {
    ghost predicate Lawful()
    {
      forall b :: decode(encode(b)) == Some(b) && ':' !in encode(b)
    }
  }

  // ----- Characters -----

  predicate NameChar(c: char)
  {
    'a' <= c <= 'z' || IsDigit(c) || c == '_' || c == '-'
  }

  predicate KeyChar(c: char)
  {
    NameChar(c) || c == '*' || c == '.'
  }

  predicate NotColon(c: char)
  {
    c != ':'
  }

  predicate Printable(s: string)
  {
    forall i :: 0 <= i < |s| ==> ' ' <= s[i] <= '~'
  }

  function Skip(s: string): (r: string)
    ensures |r| <= |s|
  {
    if s != "" && s[0] == ' ' then Skip(s[1..]) else s
  }

  predicate StartsWith(s: string, c: char)
  {
    s != "" && s[0] == c
  }

  // ----- Parsing -----

  /** The length of the longest prefix of characters that satisfy `p`. */
  function RunLength(s: string, p: char -> bool): (n: nat)
    ensures n <= |s|
  {
    if s != "" && p(s[0]) then 1 + RunLength(s[1..], p) else 0
  }

  function ParseName(s: string, p: char -> bool): (r: Parsed<string>)
    ensures r.Ok? ==> |r.rest| < |s|
  {
    var n := RunLength(s, p);
    if n == 0 then Err else Ok(s[..n], s[n..])
  }

  /** The inside of a quoted string, after `acc`. */
  function StringBody(s: string, acc: string): (r: Parsed<string>)
    ensures r.Ok? ==> |r.rest| < |s|
    decreases |s|
  {
    if s == "" then Err
    else if s[0] == '\"' then Ok(acc, s[1..])
    else if s[0] == '\\' then
      if |s| >= 2 && (s[1] == '\\' || s[1] == '\"') then StringBody(s[2..], acc + [s[1]]) else Err
    else if s[0] < ' ' || s[0] as int == 0x7f then Err
    else StringBody(s[1..], acc + [s[0]])
  }

  function ParseString(s: string): (r: Parsed<string>)
    ensures r.Ok? ==> |r.rest| < |s|
  {
    if StartsWith(s, '\"') then StringBody(s[1..], "") else Err
  }

  /** An optional minus sign and digits, as text. */
  function CutInteger(s: string): (r: Parsed<string>)
    ensures r.Ok? ==> |r.rest| < |s|
  {
    if StartsWith(s, '-') then
      var digits := ParseName(s[1..], IsDigit);
      if digits.Err? then Err else Ok("-" + digits.value, digits.rest)
    else ParseName(s, IsDigit)
  }

  function ParseInteger(s: string): (r: Parsed<int>)
    ensures r.Ok? ==> |r.rest| < |s|
  {
    var text := CutInteger(s);
    if text.Err? then Err
    else
      var v := ParseSigned(text.value);
      if v.None? then Err else Ok(v.value, text.rest)
  }

  function ParseBoolean(s: string): (r: Parsed<Value>)
    ensures r.Ok? ==> |r.rest| < |s|
  {
    if |s| >= 2 && s[0] == '?' && (s[1] == '0' || s[1] == '1') then Ok(Bool(s[1] == '1'), s[2..]) else Err
  }

  function ParseValue(s: string): (r: Parsed<Value>)
    ensures r.Ok? ==> |r.rest| < |s|
  {
    if StartsWith(s, '\"') then
      var t := ParseString(s);
      if t.Err? then Err else Ok(Str(t.value), t.rest)
    else if s != "" && (s[0] == '-' || IsDigit(s[0])) then
      var n := ParseInteger(s);
      if n.Err? then Err else Ok(Int(n.value), n.rest)
    else ParseBoolean(s)
  }

  /** One parameter after its semicolon. */
  function ParseParam(s: string): (r: Parsed<Param>)
    ensures r.Ok? ==> |r.rest| <= |s|
  {
    var name := ParseName(Skip(s), NameChar);
    if name.Err? then Err
    else
      var t := Skip(name.rest);
      if StartsWith(t, '=') then
        var v := ParseValue(Skip(t[1..]));
        if v.Err? then Err else Ok(Param(name.value, v.value), v.rest)
      else Ok(Param(name.value, Bool(true)), t)
  }

  function ParseParams(s: string, acc: seq<Param>): (r: Parsed<seq<Param>>)
    ensures r.Ok? ==> |r.rest| <= |s|
    decreases |s|
  {
    var t := Skip(s);
    if !StartsWith(t, ';') then Ok(acc, t)
    else
      var p := ParseParam(t[1..]);
      if p.Err? then Err else ParseParams(p.rest, acc + [p.value])
  }

  function ParseItem(s: string): (r: Parsed<Item>)
    ensures r.Ok? ==> |r.rest| < |s|
  {
    var name := ParseString(s);
    if name.Err? then Err
    else
      var params := ParseParams(Skip(name.rest), []);
      if params.Err? then Err else Ok(Item(name.value, params.value), params.rest)
  }

  /** An item and the spaces after it. */
  function ParseSpaced(s: string): (r: Parsed<Item>)
    ensures r.Ok? ==> |r.rest| < |s|
  {
    var item := ParseItem(s);
    if item.Err? then Err else Ok(item.value, Skip(item.rest))
  }

  function ParseItems(s: string, acc: seq<Item>): (r: Parsed<seq<Item>>)
    ensures r.Ok? ==> |r.rest| <= |s|
    decreases |s|
  {
    if s == "" || s[0] == ')' then Ok(acc, s)
    else
      var t := Skip(s);
      if StartsWith(t, ')') then Ok(acc, t)
      else
        var item := ParseSpaced(t);
        if item.Err? then Err
        else if StartsWith(item.rest, ',') then ParseItems(item.rest[1..], acc + [item.value])
        else if StartsWith(item.rest, ')') || StartsWith(item.rest, ';') then Ok(acc + [item.value], item.rest)
        else Err
  }

  function ParseInnerList(s: string): (r: Parsed<InnerList>)
    ensures r.Ok? ==> |r.rest| < |s|
  {
    if !StartsWith(s, '(') then Err
    else
      var items := ParseItems(Skip(s[1..]), []);
      if items.Err? then Err
      else
        var t := if StartsWith(items.rest, ')') then items.rest[1..] else items.rest;
        var params := ParseParams(Skip(t), []);
        if params.Err? then Err else Ok(InnerList(items.value, params.value), params.rest)
  }

  function ParseBytes(s: string, b64: Base64): (r: Parsed<seq<byte>>)
    ensures r.Ok? ==> |r.rest| < |s|
  {
    if !StartsWith(s, ':') then Err
    else
      var n := RunLength(s[1..], NotColon);
      if n + 1 >= |s| then Err
      else
        var b := b64.decode(s[1..n + 1]);
        if b.None? then Err else Ok(b.value, s[n + 2..])
  }

  function ParseMember(s: string, b64: Base64): (r: Parsed<Member>)
    ensures r.Ok? ==> |r.rest| < |s|
  {
    var t := Skip(s);
    if StartsWith(t, '(') then
      var l := ParseInnerList(t);
      if l.Err? then Err else Ok(ListMember(l.value), l.rest)
    else
      var b := ParseBytes(t, b64);
      if b.Err? then Err else Ok(BytesMember(b.value), b.rest)
  }

  function ParseEntry(s: string, b64: Base64): (r: Parsed<Entry>)
    ensures r.Ok? ==> |r.rest| < |s|
  {
    var key := ParseName(s, KeyChar);
    if key.Err? then Err
    else
      var t := Skip(key.rest);
      if !StartsWith(t, '=') then Err
      else
        var m := ParseMember(Skip(t[1..]), b64);
        if m.Err? then Err else Ok(Entry(key.value, m.value), m.rest)
  }

  function ParseDictionary(s: string, acc: seq<Entry>, b64: Base64): (r: Parsed<seq<Entry>>)
    decreases |s|
  {
    var t := Skip(s);
    if t == "" then Ok(acc, "")
    else
      var e := ParseEntry(t, b64);
      if e.Err? then Err
      else
        var u := Skip(e.rest);
        if u == "" then Ok(acc + [e.value], "")
        else if u[0] == ',' then ParseDictionary(u[1..], acc + [e.value], b64)
        else Err
  }

  // ----- Serializing -----

  function EscapeBody(s: string): (r: string)
  {
    if s == "" then ""
    else (if s[0] == '\"' || s[0] == '\\' then ['\\', s[0]] else [s[0]]) + EscapeBody(s[1..])
  }

  function Escape(s: string): (r: string)
  {
    "\"" + (EscapeBody(s) + "\"")
  }

  function PrintInt(n: int): (r: string)
  {
    if n < 0 then "-" + Print(-n) else Print(n)
  }

  function PrintValue(v: Value): (r: string)
  {
    match v
    case Int(n) => PrintInt(n)
    case Str(s) => Escape(s)
    case Bool(b) => if b then "?1" else "?0"
  }

  /** A true flag is written without a value. */
  function PrintParam(p: Param): (r: string)
  {
    ";" + (p.name + (if p.value == Bool(true) then "" else "=" + PrintValue(p.value)))
  }

  function PrintParams(ps: seq<Param>): (r: string)
  {
    if ps == [] then "" else PrintParam(ps[0]) + PrintParams(ps[1..])
  }

  function PrintItem(i: Item): (r: string)
  {
    Escape(i.name) + PrintParams(i.params)
  }

  function PrintItems(items: seq<Item>): (r: string)
  {
    if items == [] then "" else if |items| == 1 then PrintItem(items[0]) else PrintItem(items[0]) + (", " + PrintItems(items[1..]))
  }

  function PrintInnerList(l: InnerList): (r: string)
  {
    "(" + (PrintItems(l.items) + (")" + PrintParams(l.params)))
  }

  function PrintMember(m: Member, b64: Base64): (r: string)
  {
    match m
    case ListMember(l) => PrintInnerList(l)
    case BytesMember(b) => ":" + (b64.encode(b) + ":")
  }

  function PrintEntry(e: Entry, b64: Base64): (r: string)
  {
    e.key + ("=" + PrintMember(e.member, b64))
  }

  function PrintDictionary(es: seq<Entry>, b64: Base64): (r: string)
  {
    if es == [] then "" else if |es| == 1 then PrintEntry(es[0], b64) else PrintEntry(es[0], b64) + (", " + PrintDictionary(es[1..], b64))
  }

  // ----- What can be carried -----

  predicate AllChars(s: string, p: char -> bool)
  {
    forall i :: 0 <= i < |s| ==> p(s[i])
  }

  predicate ValueOk(v: Value)
  {
    match v
    case Int(n) => -0x8000_0000_0000_0000 <= n < 0x8000_0000_0000_0000
    case Str(s) => Printable(s)
    case Bool(_) => true
  }

  predicate ParamOk(p: Param)
  {
    p.name != "" && AllChars(p.name, NameChar) && ValueOk(p.value)
  }

  predicate ParamsOk(ps: seq<Param>)
  {
    forall i :: 0 <= i < |ps| ==> ParamOk(ps[i])
  }

  predicate ItemOk(i: Item)
  {
    Printable(i.name) && ParamsOk(i.params)
  }

  predicate ListOk(l: InnerList)
  {
    ParamsOk(l.params) && forall i :: 0 <= i < |l.items| ==> ItemOk(l.items[i])
  }

  predicate EntryOk(e: Entry)
  {
    e.key != "" && AllChars(e.key, KeyChar) && (e.member.ListMember? ==> ListOk(e.member.list))
  }

  // ----- Round trips -----

  lemma CommaSpace(x: string)
    ensures ", " + x == "," + (" " + x)
  {}

  lemma NoSkip(s: string)
    requires s == "" || s[0] != ' '
    ensures Skip(s) == s
  {}

  lemma {:induction false} RunIs(a: string, rest: string, p: char -> bool)
    requires AllChars(a, p) && (rest == "" || !p(rest[0]))
    ensures RunLength(a + rest, p) == |a|
  {
    if a == "" {
      assert a + rest == rest;
    } else {
      assert (a + rest)[1..] == a[1..] + rest;
      RunIs(a[1..], rest, p);
    }
  }

  lemma NameParses(name: string, rest: string, p: char -> bool)
    requires name != "" && AllChars(name, p) && (rest == "" || !p(rest[0]))
    ensures ParseName(name + rest, p) == Ok(name, rest)
  {
    RunIs(name, rest, p);
    assert (name + rest)[..|name|] == name && (name + rest)[|name|..] == rest;
  }

  lemma {:induction false} BodyParses(s: string, rest: string, acc: string)
    requires Printable(s)
    ensures StringBody(EscapeBody(s) + ("\"" + rest), acc) == Ok(acc + s, rest)
  {
    var tail := "\"" + rest;
    if s == "" {
      assert EscapeBody(s) + tail == tail && tail[1..] == rest && acc + s == acc;
    } else {
      var head := if s[0] == '\"' || s[0] == '\\' then ['\\', s[0]] else [s[0]];
      var t := EscapeBody(s[1..]) + tail;
      Joined(head, EscapeBody(s[1..]), tail);
      assert (head + t)[|head|..] == t;
      BodyParses(s[1..], rest, acc + [s[0]]);
      assert acc + [s[0]] + s[1..] == acc + s;
    }
  }

  lemma StringParses(s: string, rest: string)
    requires Printable(s)
    ensures ParseString(Escape(s) + rest) == Ok(s, rest)
  {
    var body := EscapeBody(s);
    Joined("\"", body + "\"", rest);
    Joined(body, "\"", rest);
    assert ("\"" + (body + ("\"" + rest)))[1..] == body + ("\"" + rest);
    BodyParses(s, rest, "");
    assert "" + s == s;
  }

  lemma CutMinus(digits: string, rest: string)
    requires digits != "" && AllDigits(digits) && (rest == "" || !IsDigit(rest[0]))
    ensures CutInteger("-" + digits + rest) == Ok("-" + digits, rest)
  {
    assert ("-" + digits + rest)[1..] == digits + rest;
    NameParses(digits, rest, IsDigit);
  }

  lemma CutPlain(digits: string, rest: string)
    requires digits != "" && AllDigits(digits) && (rest == "" || !IsDigit(rest[0]))
    ensures CutInteger(digits + rest) == Ok(digits, rest)
  {
    assert IsDigit(digits[0]);
    NameParses(digits, rest, IsDigit);
  }

  lemma IntegerParses(n: int, rest: string)
    requires -0x8000_0000_0000_0000 <= n < 0x8000_0000_0000_0000 && (rest == "" || !IsDigit(rest[0]))
    ensures ParseInteger(PrintInt(n) + rest) == Ok(n, rest)
  {
    assert CutInteger(PrintInt(n) + rest) == Ok(PrintInt(n), rest) by {
      if n < 0 { CutMinus(Print(-n), rest); } else { CutPlain(Print(n), rest); }
    }
    assert ParseSigned(PrintInt(n)) == Some(n) by { SignedPrinted(n); }
  }

  lemma SignedPrinted(n: int)
    requires -0x8000_0000_0000_0000 <= n < 0x8000_0000_0000_0000
    ensures ParseSigned(PrintInt(n)) == Some(n)
  {
    if n < 0 { MinusPrinted(-n); } else { PlainPrinted(n); }
  }

  lemma MinusPrinted(m: nat)
    requires m <= 0x8000_0000_0000_0000
    ensures ParseSigned("-" + Print(m)) == Some(-(m as int))
  {
    NumberPrinted(m);
    SignedMinus(Print(m));
  }

  lemma PlainPrinted(m: nat)
    requires m < 0x8000_0000_0000_0000
    ensures ParseSigned(Print(m)) == Some(m)
  {
    NumberPrinted(m);
    SignedPlain(Print(m));
  }

  lemma SignedPlain(digits: string)
    requires digits != "" && AllDigits(digits) && Number(digits) < 0x8000_0000_0000_0000
    ensures ParseSigned(digits) == Some(Number(digits))
  {
    assert IsDigit(digits[0]);
  }

  lemma SignedMinus(digits: string)
    requires digits != "" && AllDigits(digits) && Number(digits) <= 0x8000_0000_0000_0000
    ensures ParseSigned("-" + digits) == Some(-(Number(digits) as int))
  {
    assert ("-" + digits)[1..] == digits;
  }

  /** What may follow a parameter: the end, another parameter, or the end of what carries it. */
  predicate Follows(rest: string)
  {
    rest == "" || rest[0] == ';' || rest[0] == ')' || rest[0] == ','
  }

  lemma ValueParses(v: Value, rest: string)
    requires ValueOk(v) && Follows(rest)
    ensures ParseValue(PrintValue(v) + rest) == Ok(v, rest)
  {
    match v
    case Int(n) =>
      IntegerParses(n, rest);
      assert IsDigit(Print(if n < 0 then -n else n)[0]);
    case Str(t) => StringParses(t, rest);
    case Bool(b) => assert (PrintValue(v) + rest)[2..] == rest;
  }

  lemma ValueStart(v: Value, rest: string)
    requires ValueOk(v)
    ensures Skip(PrintValue(v) + rest) == PrintValue(v) + rest
  {
    if v.Int? { assert IsDigit(Print(if v.n < 0 then -v.n else v.n)[0]); }
    NoSkip(PrintValue(v) + rest);
  }

  lemma ParamParses(p: Param, rest: string)
    requires ParamOk(p) && Follows(rest)
    ensures PrintParam(p) + rest == ";" + (PrintParam(p)[1..] + rest)
    ensures ParseParam(PrintParam(p)[1..] + rest) == Ok(p, rest)
  {
    var body := if p.value == Bool(true) then "" else "=" + PrintValue(p.value);
    assert PrintParam(p)[1..] == p.name + body;
    assert PrintParam(p) == ";" + PrintParam(p)[1..];
    Joined(";", PrintParam(p)[1..], rest);
    Joined(p.name, body, rest);
    assert NameChar(p.name[0]);
    NoSkip(p.name + (body + rest));
    if p.value == Bool(true) {
      assert body + rest == rest;
      NameParses(p.name, rest, NameChar);
      NoSkip(rest);
    } else {
      var v := PrintValue(p.value) + rest;
      Joined("=", PrintValue(p.value), rest);
      NameParses(p.name, "=" + v, NameChar);
      NoSkip("=" + v);
      assert ("=" + v)[1..] == v;
      ValueStart(p.value, rest);
      ValueParses(p.value, rest);
    }
  }

  /** What may follow a list of parameters. */
  predicate Ends(rest: string)
  {
    rest == "" || rest[0] == ')' || rest[0] == ','
  }

  lemma ParamsStep(body: string, p: Param, more: string, acc: seq<Param>)
    requires ParseParam(body) == Ok(p, more)
    ensures ParseParams(";" + body, acc) == ParseParams(more, acc + [p])
  {
    NoSkip(";" + body);
    assert (";" + body)[1..] == body;
  }

  lemma {:induction false} ParamsParse(ps: seq<Param>, rest: string, acc: seq<Param>)
    requires ParamsOk(ps) && Ends(rest)
    ensures ParseParams(PrintParams(ps) + rest, acc) == Ok(acc + ps, rest)
  {
    if ps == [] {
      Nothing(rest);
      Nothing(acc);
      NoSkip(rest);
    } else {
      var more := PrintParams(ps[1..]) + rest;
      Joined(PrintParam(ps[0]), PrintParams(ps[1..]), rest);
      MoreFollows(ps[1..], rest);
      ParamParses(ps[0], more);
      ParamsStep(PrintParam(ps[0])[1..] + more, ps[0], more, acc);
      ParamsParse(ps[1..], rest, acc + [ps[0]]);
      Regroup(acc, ps);
    }
  }

  lemma MoreFollows(ps: seq<Param>, rest: string)
    requires Ends(rest)
    ensures Follows(PrintParams(ps) + rest)
  {}

  lemma ItemParses(i: Item, rest: string)
    requires ItemOk(i) && Ends(rest)
    ensures ParseItem(PrintItem(i) + rest) == Ok(i, rest)
  {
    var more := PrintParams(i.params) + rest;
    Joined(Escape(i.name), PrintParams(i.params), rest);
    StringParses(i.name, more);
    MoreFollows(i.params, rest);
    NoSkip(more);
    ParamsParse(i.params, rest, []);
    Nothing(i.params);
  }

  lemma ItemStart(i: Item, rest: string)
    ensures (PrintItem(i) + rest) != "" && (PrintItem(i) + rest)[0] == '\"'
  {}

  /** An item and a comma, with or without a space before it. */
  lemma ItemsStep(text: string, item: Item, more: string, acc: seq<Item>)
    requires text != "" && text[0] == '\"' && ParseItem(text) == Ok(item, "," + more)
    ensures ParseItems(text, acc) == ParseItems(more, acc + [item])
    ensures ParseItems(" " + text, acc) == ParseItems(more, acc + [item])
  {
    NoSkip(text);
    SpaceFirst(text);
    NoSkip("," + more);
    assert ("," + more)[1..] == more;
  }

  lemma ItemsLast(text: string, item: Item, rest: string, acc: seq<Item>)
    requires text != "" && text[0] == '\"' && ParseItem(text) == Ok(item, rest) && StartsWith(rest, ')')
    ensures ParseItems(text, acc) == Ok(acc + [item], rest)
    ensures ParseItems(" " + text, acc) == Ok(acc + [item], rest)
  {
    NoSkip(text);
    SpaceFirst(text);
    NoSkip(rest);
  }

  lemma {:induction false} ItemsParse(items: seq<Item>, rest: string, acc: seq<Item>)
    requires items != [] && (forall k :: 0 <= k < |items| ==> ItemOk(items[k])) && StartsWith(rest, ')')
    ensures ParseItems(PrintItems(items) + rest, acc) == Ok(acc + items, rest)
    ensures ParseItems(" " + (PrintItems(items) + rest), acc) == Ok(acc + items, rest)
  {
    var first := items[0];
    if |items| == 1 {
      ItemStart(first, rest);
      ItemParses(first, rest);
      ItemsLast(PrintItem(first) + rest, first, rest, acc);
      Regroup(acc, items);
      Nothing(acc + [first]);
    } else {
      var more := PrintItems(items[1..]) + rest;
      ItemsText(items, rest);
      ItemStart(first, "," + (" " + more));
      ItemParses(first, "," + (" " + more));
      ItemsStep(PrintItem(first) + ("," + (" " + more)), first, " " + more, acc);
      ItemsParse(items[1..], rest, acc + [first]);
      Regroup(acc, items);
    }
  }

  lemma ItemsText(items: seq<Item>, rest: string)
    requires |items| > 1
    ensures PrintItems(items) + rest == PrintItem(items[0]) + ("," + (" " + (PrintItems(items[1..]) + rest)))
  {
    var more := PrintItems(items[1..]);
    Joined(PrintItem(items[0]), ", " + more, rest);
    Joined(", ", more, rest);
    CommaSpace(more + rest);
  }

  lemma SpaceFirst(s: string)
    requires s != "" && s[0] != ' '
    ensures Skip(" " + s) == s
  {
    assert (" " + s)[1..] == s;
  }

  lemma ListItemsParse(items: seq<Item>, params: string)
    requires forall i :: 0 <= i < |items| ==> ItemOk(items[i])
    ensures ParseItems(Skip(PrintItems(items) + (")" + params)), []) == Ok(items, ")" + params)
  {
    var close := ")" + params;
    if items == [] {
      Nothing(close);
    } else {
      FirstItem(items, close);
      ItemsParse(items, close, []);
      Nothing(items);
    }
    NoSkip(PrintItems(items) + close);
  }

  lemma ListParamsParse(ps: seq<Param>, rest: string)
    requires ParamsOk(ps) && Ends(rest)
    ensures ParseParams(Skip(PrintParams(ps) + rest), []) == Ok(ps, rest)
  {
    MoreFollows(ps, rest);
    NoSkip(PrintParams(ps) + rest);
    ParamsParse(ps, rest, []);
    Nothing(ps);
  }

  lemma InnerListParses(l: InnerList, rest: string)
    requires ListOk(l) && Ends(rest)
    ensures ParseInnerList(PrintInnerList(l) + rest) == Ok(l, rest)
  {
    var params := PrintParams(l.params) + rest;
    InnerListText(l, rest);
    ListItemsParse(l.items, params);
    ListParamsParse(l.params, rest);
    InnerListIs(PrintItems(l.items) + (")" + params), l.items, params, l.params, rest);
  }

  lemma InnerListIs(body: string, items: seq<Item>, after: string, ps: seq<Param>, rest: string)
    requires ParseItems(Skip(body), []) == Ok(items, ")" + after) && ParseParams(Skip(after), []) == Ok(ps, rest)
    ensures ParseInnerList("(" + body) == Ok(InnerList(items, ps), rest)
  {
    assert ("(" + body)[1..] == body && (")" + after)[1..] == after;
  }

  lemma InnerListText(l: InnerList, rest: string)
    ensures PrintInnerList(l) + rest == "(" + (PrintItems(l.items) + (")" + (PrintParams(l.params) + rest)))
  {
    Joined("(", PrintItems(l.items) + (")" + PrintParams(l.params)), rest);
    Joined(PrintItems(l.items), ")" + PrintParams(l.params), rest);
    Joined(")", PrintParams(l.params), rest);
  }

  lemma FirstItem(items: seq<Item>, rest: string)
    requires items != []
    ensures (PrintItems(items) + rest) != "" && (PrintItems(items) + rest)[0] == '\"'
  {}

  /** A whole inner list: what a `Signature-Input` member carries. */
  lemma InnerListRoundTrip(l: InnerList)
    requires ListOk(l)
    ensures ParseInnerList(PrintInnerList(l)) == Ok(l, "")
  {
    InnerListParses(l, "");
    assert PrintInnerList(l) + "" == PrintInnerList(l);
  }

  lemma BytesParse(b: seq<byte>, rest: string, b64: Base64)
    requires b64.Lawful()
    ensures ParseBytes(":" + (b64.encode(b) + (":" + rest)), b64) == Ok(b, rest)
  {
    var e, tail := b64.encode(b), ":" + rest;
    var s := ":" + (e + tail);
    assert s[1..] == e + tail;
    RunIs(e, tail, NotColon);
    assert s[1..|e| + 1] == e && s[|e| + 2..] == rest;
  }

  lemma MemberParses(m: Member, rest: string, b64: Base64)
    requires b64.Lawful() && (m.ListMember? ==> ListOk(m.list)) && (rest == "" || rest[0] == ',')
    ensures ParseMember(PrintMember(m, b64) + rest, b64) == Ok(m, rest)
  {
    match m
    case ListMember(l) =>
      InnerListText(l, rest);
      NoSkip(PrintInnerList(l) + rest);
      InnerListParses(l, rest);
    case BytesMember(b) =>
      Joined(":", b64.encode(b) + ":", rest);
      Joined(b64.encode(b), ":", rest);
      NoSkip(":" + (b64.encode(b) + (":" + rest)));
      BytesParse(b, rest, b64);
  }

  lemma MemberStart(m: Member, rest: string, b64: Base64)
    ensures Skip(PrintMember(m, b64) + rest) == PrintMember(m, b64) + rest
  {
    NoSkip(PrintMember(m, b64) + rest);
  }

  lemma EntryParses(e: Entry, rest: string, b64: Base64)
    requires b64.Lawful() && EntryOk(e) && (rest == "" || rest[0] == ',')
    ensures ParseEntry(PrintEntry(e, b64) + rest, b64) == Ok(e, rest)
  {
    var m := PrintMember(e.member, b64) + rest;
    Joined(e.key, "=" + PrintMember(e.member, b64), rest);
    Joined("=", PrintMember(e.member, b64), rest);
    NameParses(e.key, "=" + m, KeyChar);
    NoSkip("=" + m);
    assert ("=" + m)[1..] == m;
    MemberStart(e.member, rest, b64);
    MemberParses(e.member, rest, b64);
  }

  lemma EntryStart(e: Entry, rest: string, b64: Base64)
    requires EntryOk(e)
    ensures (PrintEntry(e, b64) + rest) != "" && (PrintEntry(e, b64) + rest)[0] != ' '
  {
    assert KeyChar(e.key[0]);
  }

  lemma DictionaryStep(text: string, e: Entry, more: string, acc: seq<Entry>, b64: Base64)
    requires text != "" && text[0] != ' ' && ParseEntry(text, b64) == Ok(e, "," + more)
    ensures ParseDictionary(text, acc, b64) == ParseDictionary(more, acc + [e], b64)
    ensures ParseDictionary(" " + text, acc, b64) == ParseDictionary(more, acc + [e], b64)
  {
    NoSkip(text);
    SpaceFirst(text);
    NoSkip("," + more);
    assert ("," + more)[1..] == more;
  }

  lemma DictionaryLast(text: string, e: Entry, acc: seq<Entry>, b64: Base64)
    requires text != "" && text[0] != ' ' && ParseEntry(text, b64) == Ok(e, "")
    ensures ParseDictionary(text, acc, b64) == Ok(acc + [e], "")
    ensures ParseDictionary(" " + text, acc, b64) == Ok(acc + [e], "")
  {
    NoSkip(text);
    SpaceFirst(text);
  }

  /** A whole dictionary: the `Signature-Input` and `Signature` fields. */
  lemma {:induction false} DictionaryRoundTrip(es: seq<Entry>, acc: seq<Entry>, b64: Base64)
    requires b64.Lawful() && forall k :: 0 <= k < |es| ==> EntryOk(es[k])
    ensures ParseDictionary(PrintDictionary(es, b64), acc, b64) == Ok(acc + es, "")
    ensures es != [] ==> ParseDictionary(" " + PrintDictionary(es, b64), acc, b64) == Ok(acc + es, "")
  {
    if es == [] {
      Nothing(acc);
    } else if |es| == 1 {
      var text := PrintEntry(es[0], b64);
      Nothing(text);
      EntryStart(es[0], "", b64);
      EntryParses(es[0], "", b64);
      DictionaryLast(text, es[0], acc, b64);
      Regroup(acc, es);
      Nothing(acc + [es[0]]);
    } else {
      var more := " " + PrintDictionary(es[1..], b64);
      CommaSpace(PrintDictionary(es[1..], b64));
      EntryStart(es[0], "," + more, b64);
      EntryParses(es[0], "," + more, b64);
      DictionaryStep(PrintEntry(es[0], b64) + ("," + more), es[0], more, acc, b64);
      DictionaryRoundTrip(es[1..], acc + [es[0]], b64);
      Regroup(acc, es);
    }
  }
}
