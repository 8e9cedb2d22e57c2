/** The index-moving parsers and appending serializers of tpt-http-sig/src/sf.rs, proved against StructuredFields. */
module SfCursor {
  import opened Decimal
  import opened StructuredFields
  import opened Sequences
  import opened Wrappers

  class Cursor {
    const data: string
    var i: nat

    ghost predicate Valid()
      reads this
    {
      i <= |data|
    }

    ghost function Unread(): (s: string)
      requires Valid()
      reads this
    {
      data[i..]
    }

    /** The outcome and the new position are those of `p`. */
    ghost predicate Agrees<T(!new)>(r: Option<T>, p: Parsed<T>)
      reads this
    {
      && Valid()
      && match p {
         case Ok(v, rest) => r == Some(v) && Unread() == rest
         case Err => r.None?
         }
    }

    constructor (data: string)
      ensures Valid() && this.data == data && Unread() == data
    {
      this.data := data;
      i := 0;
    }

    method SkipSpaces()
      requires Valid()
      modifies this
      ensures Valid() && Unread() == Skip(old(Unread()))
    {
      while i < |data| && data[i] == ' '
        invariant Valid() && Skip(Unread()) == Skip(old(Unread()))
        decreases |data| - i
      {
        assert data[i..][1..] == data[i + 1..];
        i := i + 1;
      }
    }

    method Expect(c: char) returns (ok: bool)
      requires Valid()
      modifies this
      ensures Valid() && ok == StartsWith(old(Unread()), c)
      ensures Unread() == if ok then old(Unread())[1..] else old(Unread())
    {
      if i >= |data| || data[i] != c { return false; }
      i := i + 1;
      return true;
    }

    method Name(p: char -> bool) returns (r: Option<string>)
      requires Valid()
      modifies this
      ensures Agrees(r, ParseName(old(Unread()), p))
    {
      var start := i;
      if i >= |data| || !p(data[i]) { return None; }
      while i < |data| && p(data[i])
        invariant Valid() && start <= i
        invariant RunLength(data[start..], p) == i - start + RunLength(data[i..], p)
        decreases |data| - i
      {
        assert data[i..][1..] == data[i + 1..];
        i := i + 1;
      }
      assert data[start..][..i - start] == data[start..i] && data[start..][i - start..] == data[i..];
      r := Some(data[start..i]);
    }

    method QuotedString() returns (r: Option<string>)
      requires Valid()
      modifies this
      ensures Agrees(r, ParseString(old(Unread())))
    {
      var open := Expect('\"');
      if !open { return None; }
      ghost var body := Unread();
      var out := "";
      while true
        invariant Valid() && StringBody(Unread(), out) == StringBody(body, "")
        decreases |data| - i
      {
        if i >= |data| { return None; }
        var c := data[i];
        if c == '\"' {
          i := i + 1;
          return Some(out);
        }
        if c == '\\' {
          if i + 1 >= |data| { return None; }
          var e := data[i + 1];
          if e != '\\' && e != '\"' { return None; }
          assert data[i..][2..] == data[i + 2..];
          out := out + [e];
          i := i + 2;
        } else {
          if c < ' ' || c as int == 0x7f { return None; }
          assert data[i..][1..] == data[i + 1..];
          out := out + [c];
          i := i + 1;
        }
      }
    }

    method Integer() returns (r: Option<int>)
      requires Valid()
      modifies this
      ensures Agrees(r, ParseInteger(old(Unread())))
    {
      var text := IntegerText();
      if text.None? { return None; }
      r := ParseSigned(text.value);
    }

    method IntegerText() returns (r: Option<string>)
      requires Valid()
      modifies this
      ensures Agrees(r, CutInteger(old(Unread())))
    {
      var minus := Expect('-');
      var digits := Name(IsDigit);
      if digits.None? { return None; }
      r := Some(if minus then "-" + digits.value else digits.value);
    }

    method ParamValue() returns (r: Option<Value>)
      requires Valid()
      modifies this
      ensures Agrees(r, ParseValue(old(Unread())))
    {
      if i < |data| && data[i] == '\"' {
        var t := QuotedString();
        return if t.Some? then Some(Str(t.value)) else None;
      }
      if i < |data| && (data[i] == '-' || IsDigit(data[i])) {
        var n := Integer();
        return if n.Some? then Some(Int(n.value)) else None;
      }
      if i + 1 >= |data| || data[i] != '?' || (data[i + 1] != '0' && data[i + 1] != '1') { return None; }
      r := Some(Bool(data[i + 1] == '1'));
      i := i + 2;
    }

    method NextParam() returns (r: Option<Param>)
      requires Valid()
      modifies this
      ensures Agrees(r, ParseParam(old(Unread())))
    {
      SkipSpaces();
      var name := Name(NameChar);
      if name.None? { return None; }
      SkipSpaces();
      var valued := Expect('=');
      if !valued { return Some(Param(name.value, Bool(true))); }
      SkipSpaces();
      var v := ParamValue();
      return if v.Some? then Some(Param(name.value, v.value)) else None;
    }

    method Parameters() returns (r: Option<seq<Param>>)
      requires Valid()
      modifies this
      ensures Agrees(r, ParseParams(old(Unread()), []))
    {
      var params: seq<Param> := [];
      while true
        invariant Valid() && ParseParams(Unread(), params) == old(ParseParams(Unread(), []))
        decreases |data| - i
      {
        SkipSpaces();
        var more := Expect(';');
        if !more { return Some(params); }
        var p := NextParam();
        if p.None? { return None; }
        params := params + [p.value];
      }
    }

    method NextItem() returns (r: Option<Item>)
      requires Valid()
      modifies this
      ensures Agrees(r, ParseItem(old(Unread())))
    {
      var name := QuotedString();
      if name.None? { return None; }
      SkipSpaces();
      var params := Parameters();
      return if params.Some? then Some(Item(name.value, params.value)) else None;
    }

    method NextSpaced() returns (r: Option<Item>)
      requires Valid()
      modifies this
      ensures Agrees(r, ParseSpaced(old(Unread())))
    {
      r := NextItem();
      if r.Some? { SkipSpaces(); }
    }

    /** An item, and whether a comma follows it. */
    method ItemAndComma() returns (item: Option<Item>, comma: bool)
      requires Valid()
      modifies this
      ensures Valid() && (item.None? <==> ParseSpaced(old(Unread())).Err?)
      ensures item.Some? ==>
                var p := ParseSpaced(old(Unread()));
                && p.Ok? && item.value == p.value && comma == StartsWith(p.rest, ',')
                && Unread() == if comma then p.rest[1..] else p.rest
    {
      comma := false;
      item := NextSpaced();
      if item.Some? { comma := Expect(','); }
    }

    /** The next character, if it is `c`. */
    predicate Sees(c: char)
      requires Valid()
      reads this
      ensures Sees(c) <==> StartsWith(Unread(), c)
    {
      i < |data| && data[i] == c
    }

    method Items() returns (r: Option<seq<Item>>)
      requires Valid()
      modifies this
      ensures Agrees(r, ParseItems(old(Unread()), []))
    {
      ghost var whole := ParseItems(Unread(), []);
      var items: seq<Item> := [];
      while i < |data| && data[i] != ')'
        invariant Valid() && ParseItems(Unread(), items) == whole
        decreases |data| - i
      {
        SkipSpaces();
        if Sees(')') { break; }
        var item, comma := ItemAndComma();
        if item.None? { return None; }
        items := items + [item.value];
        if !comma {
          return if Sees(')') || Sees(';') then Some(items) else None;
        }
      }
      return Some(items);
    }

    method NextInnerList() returns (r: Option<InnerList>)
      requires Valid()
      modifies this
      ensures Agrees(r, ParseInnerList(old(Unread())))
    {
      var open := Expect('(');
      if !open { return None; }
      SkipSpaces();
      var items := Items();
      if items.None? { return None; }
      var closed := Expect(')');
      SkipSpaces();
      var params := Parameters();
      return if params.Some? then Some(InnerList(items.value, params.value)) else None;
    }
  }

  // ----- Serializing by appending -----

  lemma {:induction false} EscapeSnoc(s: string, i: nat)
    requires i < |s|
    ensures EscapeBody(s[..i + 1])
         == EscapeBody(s[..i]) + (if s[i] == '\"' || s[i] == '\\' then ['\\', s[i]] else [s[i]])
  {
    if i == 0 {
      assert s[..1] == [s[0]] && [s[0]][1..] == "";
    } else {
      EscapeSnoc(s[1..], i - 1);
      assert s[..i + 1][1..] == s[1..][..i] && s[..i][1..] == s[1..][..i - 1];
    }
  }

  method WriteString(s: string) returns (out: string)
    ensures out == Escape(s)
  {
    out := "\"";
    for i := 0 to |s|
      invariant out == "\"" + EscapeBody(s[..i])
    {
      EscapeSnoc(s, i);
      if s[i] == '\"' || s[i] == '\\' { out := out + ['\\', s[i]]; } else { out := out + [s[i]]; }
    }
    assert s[..|s|] == s;
    Joined("\"", EscapeBody(s), "\"");
    out := out + "\"";
  }

  lemma {:induction false} PrintParamsSnoc(ps: seq<Param>, i: nat)
    requires i < |ps|
    ensures PrintParams(ps[..i + 1]) == PrintParams(ps[..i]) + PrintParam(ps[i])
  {
    if i == 0 {
      assert ps[..1] == [ps[0]] && [ps[0]][1..] == [];
      Nothing(PrintParam(ps[0]));
    } else {
      PrintParamsSnoc(ps[1..], i - 1);
      assert ps[..i + 1][1..] == ps[1..][..i] && ps[..i][1..] == ps[1..][..i - 1];
      Joined(PrintParam(ps[0]), PrintParams(ps[1..][..i - 1]), PrintParam(ps[i]));
    }
  }

  method WriteParams(ps: seq<Param>) returns (out: string)
    ensures out == PrintParams(ps)
  {
    out := "";
    for i := 0 to |ps|
      invariant out == PrintParams(ps[..i])
    {
      PrintParamsSnoc(ps, i);
      var text := ";" + (ps[i].name + (if ps[i].value == Bool(true) then "" else "=" + PrintValue(ps[i].value)));
      out := out + text;
    }
    assert ps[..|ps|] == ps;
  }

  /** The items from `i` on, each but the first after a comma and a space. */
  lemma {:induction false} PrintItemsSnoc(items: seq<Item>, i: nat)
    requires i < |items|
    ensures PrintItems(items[..i + 1]) == PrintItems(items[..i]) + ((if i > 0 then ", " else "") + PrintItem(items[i]))
  {
    if i == 0 {
      assert items[..1] == [items[0]] && items[..0] == [];
      Nothing(PrintItem(items[0]));
    } else {
      PrintItemsSnoc(items[1..], i - 1);
      FirstAndLast(items[0], items[1..], i);
      assert items[..i + 1] == [items[0]] + items[1..][..i] && items[..i] == [items[0]] + items[1..][..i - 1];
    }
  }

  lemma ItemThenItems(x: Item, xs: seq<Item>)
    ensures PrintItems([x] + xs) == if xs == [] then PrintItem(x) else PrintItem(x) + (", " + PrintItems(xs))
  {
    assert ([x] + xs)[1..] == xs;
  }

  lemma FirstAndLast(x: Item, tail: seq<Item>, i: nat)
    requires 1 <= i <= |tail|
    requires PrintItems(tail[..i]) == PrintItems(tail[..i - 1]) + ((if i > 1 then ", " else "") + PrintItem(tail[i - 1]))
    ensures PrintItems([x] + tail[..i]) == PrintItems([x] + tail[..i - 1]) + (", " + PrintItem(tail[i - 1]))
  {
    ItemThenItems(x, tail[..i]);
    ItemThenItems(x, tail[..i - 1]);
    var last := ", " + PrintItem(tail[i - 1]);
    if i == 1 {
      assert tail[..0] == [];
      Nothing(PrintItem(tail[0]));
    } else {
      Joined(PrintItem(x), ", " + PrintItems(tail[..i - 1]), last);
      Joined(", ", PrintItems(tail[..i - 1]), last);
    }
  }

  method WriteInnerList(l: InnerList) returns (out: string)
    ensures out == PrintInnerList(l)
  {
    var items := WriteItems(l.items);
    var params := WriteParams(l.params);
    out := "(" + (items + (")" + params));
  }

  method WriteItems(items: seq<Item>) returns (out: string)
    ensures out == PrintItems(items)
  {
    out := "";
    for i := 0 to |items|
      invariant out == PrintItems(items[..i])
    {
      PrintItemsSnoc(items, i);
      var name := WriteString(items[i].name);
      var params := WriteParams(items[i].params);
      out := out + ((if i > 0 then ", " else "") + (name + params));
    }
    assert items[..|items|] == items;
  }
}
