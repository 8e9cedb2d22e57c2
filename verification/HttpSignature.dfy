/**
 HTTP message signatures (tpt-http-sig/src/signer.rs): the verifier parses the signer's `Signature-Input` text
 and rebuilds byte for byte the base that was signed. Keys, clocks and component values are parameters.
 */
module HttpSignature {
  import opened BigEndian
  import opened Decimal
  import opened StructuredFields
  import opened WovenText
  import opened Sequences
  import opened Wrappers

  // ----- The signature base -----

  /** The name is quoted as it is, without escapes. */
  function PrintComponent(c: Item): (s: string)
  {
    "\"" + (c.name + ("\"" + PrintParams(c.params)))
  }

  function Line(c: Item, v: string): (s: string)
  {
    PrintComponent(c) + (": " + (v + "\n"))
  }

  /** The identifiers of some components. */
  function Texts(cs: seq<Item>): (r: set<string>)
  {
    set j | 0 <= j < |cs| :: PrintComponent(cs[j])
  }

  /** One line per component; a repeated or underivable component is an error. */
  function BaseLines(cs: seq<Item>, value: Item -> Option<string>): (r: Option<string>)
  {
    if cs == [] then Some("")
    else
      var init, c := cs[..|cs| - 1], cs[|cs| - 1];
      AddLine(BaseLines(init, value), PrintComponent(c) in Texts(init), c, value(c))
  }

  function AddLine(lines: Option<string>, repeated: bool, c: Item, v: Option<string>): (r: Option<string>)
  {
    if lines.None? || repeated || v.None? then None else Some(lines.value + Line(c, v.value))
  }

  const PARAMS_LABEL := "\"@signature-params\": "

  function BuildBase(cs: seq<Item>, params: seq<Param>, value: Item -> Option<string>): (r: Option<string>)
  {
    var lines := BaseLines(cs, value);
    if lines.None? then None else Some(lines.value + (PARAMS_LABEL + PrintInnerList(InnerList(cs, params))))
  }

  /** The loop over the components, with the set of identifiers already seen. */
  method CollectLines(cs: seq<Item>, value: Item -> Option<string>) returns (r: Option<string>)
    ensures r == BaseLines(cs, value)
  {
    var out := "";
    var seen: set<string> := {};
    for i := 0 to |cs|
      invariant BaseLines(cs[..i], value) == Some(out) && seen == Texts(cs[..i])
    {
      LinesStep(cs, i, value);
      var text, v := PrintComponent(cs[i]), value(cs[i]);
      if text in seen || v.None? {
        LinesFail(cs, i + 1, value);
        return None;
      }
      seen := seen + {text};
      out := out + Line(cs[i], v.value);
    }
    assert cs[..|cs|] == cs;
    return Some(out);
  }

  method BuildSignatureBase(cs: seq<Item>, params: seq<Param>, value: Item -> Option<string>) returns (r: Option<string>)
    ensures r == BuildBase(cs, params, value)
  {
    var lines := CollectLines(cs, value);
    if lines.None? { return None; }
    return Some(lines.value + (PARAMS_LABEL + PrintInnerList(InnerList(cs, params))));
  }

  lemma LinesStep(cs: seq<Item>, i: nat, value: Item -> Option<string>)
    requires i < |cs|
    ensures BaseLines(cs[..i + 1], value)
         == AddLine(BaseLines(cs[..i], value), PrintComponent(cs[i]) in Texts(cs[..i]), cs[i], value(cs[i]))
    ensures Texts(cs[..i + 1]) == Texts(cs[..i]) + {PrintComponent(cs[i])}
  {
    var init, all := cs[..i], cs[..i + 1];
    assert all[..i] == init && all == init + [cs[i]];
    TextsNext(init, cs[i]);
  }

  lemma TextsNext(init: seq<Item>, c: Item)
    ensures Texts(init + [c]) == Texts(init) + {PrintComponent(c)}
  {
    var all := init + [c];
    forall x ensures x in Texts(all) <==> x in Texts(init) + {PrintComponent(c)} {
      if x in Texts(init) {
        var j :| 0 <= j < |init| && PrintComponent(init[j]) == x;
        assert all[j] == init[j];
      }
      if x == PrintComponent(c) { assert all[|init|] == c; }
    }
  }

  /** A failure among the first components is a failure of the whole. */
  lemma {:induction false} LinesFail(cs: seq<Item>, n: nat, value: Item -> Option<string>)
    requires n <= |cs| && BaseLines(cs[..n], value).None?
    ensures BaseLines(cs, value).None?
    decreases |cs| - n
  {
    if n < |cs| {
      LinesStep(cs, n, value);
      LinesFail(cs, n + 1, value);
    } else {
      assert cs[..n] == cs;
    }
  }

  // ----- Reading the covered components back -----

  function LowerCase(s: string): (r: string)
    ensures |r| == |s|
  {
    if s == "" then "" else [if 'A' <= s[0] <= 'Z' then (s[0] as int + 32) as char else s[0]] + LowerCase(s[1..])
  }

  /** Field names are lower-cased, derived names kept. */
  function Effective(i: Item): (c: Item)
  {
    if StartsWith(i.name, '@') then i else Item(LowerCase(i.name), i.params)
  }

  function EffectiveAll(items: seq<Item>): (cs: seq<Item>)
    ensures |cs| == |items|
  {
    if items == [] then [] else [Effective(items[0])] + EffectiveAll(items[1..])
  }

  /** A component as `ComponentId::parse` makes it. */
  predicate Normal(c: Item)
  {
    Effective(c) == c
  }

  lemma {:induction false} LowerCaseTwice(s: string)
    ensures LowerCase(LowerCase(s)) == LowerCase(s)
  {
    if s != "" {
      LowerCaseTwice(s[1..]);
      assert LowerCase(s)[1..] == LowerCase(s[1..]);
    }
  }

  /** What parsing makes of a component is normal. */
  lemma EffectiveIsNormal(i: Item)
    ensures Normal(Effective(i))
  {
    LowerCaseTwice(i.name);
  }

  lemma {:induction false} NormalKept(cs: seq<Item>)
    requires forall k :: 0 <= k < |cs| ==> Normal(cs[k])
    ensures EffectiveAll(cs) == cs
  {
    if cs != [] {
      assert Normal(cs[0]);
      NormalKept(cs[1..]);
    }
  }

  datatype Input = Input(components: seq<Item>, params: seq<Param>)

  /** `parse_signature_input_value` */
  function ParseInput(text: string): (r: Option<Input>)
  {
    var l := ParseInnerList(text);
    if l.Err? then None else Some(Input(EffectiveAll(l.value.items), l.value.params))
  }

  predicate AllNormal(cs: seq<Item>)
  {
    forall k :: 0 <= k < |cs| ==> Normal(cs[k])
  }

  lemma {:induction false} EffectiveAt(cs: seq<Item>, k: nat)
    requires k < |cs|
    ensures EffectiveAll(cs)[k] == Effective(cs[k])
  {
    if k > 0 { EffectiveAt(cs[1..], k - 1); }
  }

  lemma NormalIff(cs: seq<Item>)
    ensures EffectiveAll(cs) == cs <==> AllNormal(cs)
  {
    if AllNormal(cs) { NormalKept(cs); }
    if EffectiveAll(cs) == cs {
      forall k | 0 <= k < |cs| ensures Normal(cs[k]) { EffectiveAt(cs, k); }
    }
  }

  /** The verifier reads back the signer's parameters, and the components with their field names in lower case. */
  lemma InputRoundTrip(cs: seq<Item>, params: seq<Param>)
    requires ListOk(InnerList(cs, params))
    ensures ParseInput(PrintInnerList(InnerList(cs, params))) == Some(Input(EffectiveAll(cs), params))
    ensures EffectiveAll(cs) == cs <==> AllNormal(cs)
  {
    InnerListRoundTrip(InnerList(cs, params));
    NormalIff(cs);
  }

  /** So the verifier rebuilds the base that was signed if and only if all components were in normal form. */
  lemma VerifierRebuildsBase(cs: seq<Item>, params: seq<Param>, value: Item -> Option<string>)
    requires ListOk(InnerList(cs, params)) && BuildBase(cs, params, value).Some?
    ensures var input := ParseInput(PrintInnerList(InnerList(cs, params)));
            && input.Some? && input.value == Input(EffectiveAll(cs), params)
            && (BuildBase(input.value.components, input.value.params, value) == BuildBase(cs, params, value) <==> AllNormal(cs))
  {
    InputRoundTrip(cs, params);
    if BuildBase(EffectiveAll(cs), params, value) == BuildBase(cs, params, value) {
      EffectiveOk(cs);
      BaseNames(cs, params, value, EffectiveAll(cs), params, value);
    }
  }

  lemma {:induction false} LowerPrintable(s: string)
    requires Printable(s)
    ensures Printable(LowerCase(s))
  {
    if s != "" {
      LowerPrintable(s[1..]);
      forall i | 0 <= i < |s| ensures ' ' <= LowerCase(s)[i] <= '~' {
        if i > 0 { assert LowerCase(s)[i] == LowerCase(s[1..])[i - 1]; }
      }
    }
  }

  lemma EffectiveOk(cs: seq<Item>)
    requires forall k :: 0 <= k < |cs| ==> ItemOk(cs[k])
    ensures forall k :: 0 <= k < |cs| ==> ItemOk(EffectiveAll(cs)[k])
  {
    forall k | 0 <= k < |cs| ensures ItemOk(EffectiveAll(cs)[k]) {
      EffectiveAt(cs, k);
      LowerPrintable(cs[k].name);
    }
  }

  // ----- Bases tell what was signed -----

  lemma PrintableJoin(a: string, b: string)
    requires Printable(a) && Printable(b)
    ensures Printable(a + b)
  {}

  lemma {:induction false} EscapePrintable(s: string)
    requires Printable(s)
    ensures Printable(EscapeBody(s)) && Printable(Escape(s))
  {
    if s != "" {
      EscapePrintable(s[1..]);
      PrintableJoin(if s[0] == '\"' || s[0] == '\\' then ['\\', s[0]] else [s[0]], EscapeBody(s[1..]));
    }
    PrintableJoin(EscapeBody(s), "\"");
    PrintableJoin("\"", EscapeBody(s) + "\"");
  }

  lemma DigitsPrintable(n: nat)
    ensures Printable(Print(n))
  {
    var s := Print(n);
    forall i | 0 <= i < |s| ensures ' ' <= s[i] <= '~' { assert IsDigit(s[i]); }
  }

  lemma ParamPrintable(p: Param)
    requires ParamOk(p)
    ensures Printable(PrintParam(p))
  {
    match p.value {
      case Int(n) => if n < 0 { DigitsPrintable(-n); } else { DigitsPrintable(n); }
      case Str(t) => EscapePrintable(t);
      case Bool(_) =>
    }
    assert Printable(PrintValue(p.value));
    assert Printable(p.name) by { assert AllChars(p.name, NameChar); }
  }

  lemma {:induction false} ParamsPrintable(ps: seq<Param>)
    requires ParamsOk(ps)
    ensures Printable(PrintParams(ps))
  {
    if ps != [] {
      ParamPrintable(ps[0]);
      ParamsPrintable(ps[1..]);
      PrintableJoin(PrintParam(ps[0]), PrintParams(ps[1..]));
    }
  }

  lemma ComponentPrintable(c: Item)
    requires ItemOk(c)
    ensures Printable(PrintComponent(c)) && Printable(PrintItem(c))
  {
    ParamsPrintable(c.params);
    EscapePrintable(c.name);
    PrintableJoin(Escape(c.name), PrintParams(c.params));
    PrintableJoin("\"", PrintParams(c.params));
    PrintableJoin(c.name, "\"" + PrintParams(c.params));
    PrintableJoin("\"", c.name + ("\"" + PrintParams(c.params)));
  }

  lemma {:induction false} ItemsPrintable(items: seq<Item>)
    requires forall k :: 0 <= k < |items| ==> ItemOk(items[k])
    ensures Printable(PrintItems(items))
  {
    if items != [] {
      ComponentPrintable(items[0]);
      ItemsPrintable(items[1..]);
      PrintableJoin(", ", PrintItems(items[1..]));
      PrintableJoin(PrintItem(items[0]), ", " + PrintItems(items[1..]));
    }
  }

  lemma Bracketed(a: string, b: string)
    requires Printable(a) && Printable(b)
    ensures Printable("(" + (a + (")" + b)))
  {
    PrintableJoin(")", b);
    PrintableJoin(a, ")" + b);
    PrintableJoin("(", a + (")" + b));
  }

  lemma ListPrintable(l: InnerList)
    requires ListOk(l)
    ensures Printable(PARAMS_LABEL + PrintInnerList(l))
  {
    ItemsPrintable(l.items);
    ParamsPrintable(l.params);
    Bracketed(PrintItems(l.items), PrintParams(l.params));
    Labelled(PARAMS_LABEL, PrintInnerList(l));
  }

  lemma Labelled(head: string, t: string)
    requires head == PARAMS_LABEL && Printable(t)
    ensures Printable(head + t)
  {}

  /** Nothing, or lines that have all ended. */
  predicate Ended(s: string)
  {
    s == "" || s[|s| - 1] == '\n'
  }

  /** Text of one line, whose end may be its last character. */
  predicate OneLine(s: string)
  {
    s != "" && forall i :: 0 <= i < |s| - 1 ==> s[i] != '\n'
  }

  lemma NoLonger(x: string, t: string, y: string, u: string)
    requires Ended(x) && Ended(y) && OneLine(t) && OneLine(u) && x + t == y + u
    ensures |x| <= |y|
  {
    assert x != "" ==> (x + t)[|x| - 1] == x[|x| - 1];
  }

  /** The last line can be told from those before it. */
  lemma LastLine(x: string, t: string, y: string, u: string)
    requires Ended(x) && Ended(y) && OneLine(t) && OneLine(u) && x + t == y + u
    ensures x == y && t == u
  {
    NoLonger(x, t, y, u);
    NoLonger(y, u, x, t);
    assert x == (x + t)[..|x|] && y == (y + u)[..|y|];
    assert t == (x + t)[|x|..] && u == (y + u)[|y|..];
  }

  lemma LinesEnded(cs: seq<Item>, value: Item -> Option<string>)
    requires BaseLines(cs, value).Some?
    ensures Ended(BaseLines(cs, value).value)
  {}

  lemma PrintableLine(s: string)
    requires s != "" && Printable(s)
    ensures OneLine(s)
  {}

  /** Equal bases name the same components and parameters, whatever the values. */
  lemma BaseNames(cs: seq<Item>, ps: seq<Param>, value: Item -> Option<string>,
                  ds: seq<Item>, qs: seq<Param>, other: Item -> Option<string>)
    requires ListOk(InnerList(cs, ps)) && ListOk(InnerList(ds, qs))
    requires BuildBase(cs, ps, value).Some? && BuildBase(cs, ps, value) == BuildBase(ds, qs, other)
    ensures cs == ds && ps == qs && BaseLines(cs, value) == BaseLines(ds, other)
  {
    var l, m := InnerList(cs, ps), InnerList(ds, qs);
    LinesEnded(cs, value);
    LinesEnded(ds, other);
    ListPrintable(l);
    ListPrintable(m);
    PrintableLine(PARAMS_LABEL + PrintInnerList(l));
    PrintableLine(PARAMS_LABEL + PrintInnerList(m));
    LastLine(BaseLines(cs, value).value, PARAMS_LABEL + PrintInnerList(l),
             BaseLines(ds, other).value, PARAMS_LABEL + PrintInnerList(m));
    SamePrefix(PARAMS_LABEL, PrintInnerList(l), PrintInnerList(m));
    InnerListRoundTrip(l);
    InnerListRoundTrip(m);
  }

  // ----- When a base tells the values -----

  /** What stands before a value: the end of the line before it, and the component's identifier. */
  function Separator(c: Item): (s: string)
  {
    "\n" + (PrintComponent(c) + ": ")
  }

  function Separators(cs: seq<Item>): (r: seq<string>)
    ensures |r| == |cs| && forall k :: 0 <= k < |cs| ==> r[k] == Separator(cs[k])
  {
    seq(|cs|, i requires 0 <= i < |cs| => Separator(cs[i]))
  }

  predicate Valued(cs: seq<Item>, value: Item -> Option<string>)
  {
    forall k :: 0 <= k < |cs| ==> value(cs[k]).Some?
  }

  function Values(cs: seq<Item>, value: Item -> Option<string>): (r: seq<string>)
    requires Valued(cs, value)
    ensures |r| == |cs| && forall k :: 0 <= k < |cs| ==> value(cs[k]) == Some(r[k])
  {
    seq(|cs|, i requires 0 <= i < |cs| => value(cs[i]).value)
  }

  /** A value does not hold the separator of the next component, nor, but for the first, that of its own. */
  predicate Unmixed(cs: seq<Item>, value: Item -> Option<string>)
    requires Valued(cs, value)
  {
    && (forall k :: 0 <= k < |cs| - 1 ==> !Holds(value(cs[k]).value, Separator(cs[k + 1])))
    && (forall k :: 1 <= k < |cs| ==> !Holds(value(cs[k]).value, Separator(cs[k])))
  }

  lemma UnmixedIsClean(cs: seq<Item>, value: Item -> Option<string>)
    requires Valued(cs, value)
    ensures Unmixed(cs, value) <==> Clean(Separators(cs), Values(cs, value))
  {
    var seps, vs := Separators(cs), Values(cs, value);
    assert forall k :: 0 <= k < |cs| ==> vs[k] == value(cs[k]).value;
    if Clean(seps, vs) {
      forall k | 0 <= k < |cs| - 1 ensures !Holds(value(cs[k]).value, Separator(cs[k + 1])) { assert !Holds(vs[k], seps[k + 1]); }
      forall k | 1 <= k < |cs| ensures !Holds(value(cs[k]).value, Separator(cs[k])) { assert !Holds(vs[k], seps[k]); }
    }
  }

  predicate Unbroken(cs: seq<Item>, value: Item -> Option<string>)
    requires Valued(cs, value)
  {
    forall k :: 0 <= k < |cs| ==> '\n' !in value(cs[k]).value
  }

  /** Values without line breaks hold no separators. */
  lemma UnbrokenIsUnmixed(cs: seq<Item>, value: Item -> Option<string>)
    requires Valued(cs, value) && Unbroken(cs, value)
    ensures Unmixed(cs, value)
  {
    forall k, c: Item | 0 <= k < |cs| ensures !Holds(value(cs[k]).value, Separator(c)) {
      NoBreakNoSeparator(value(cs[k]).value, Separator(c));
    }
  }

  lemma NoBreakNoSeparator(v: string, sep: string)
    requires '\n' !in v && sep != "" && sep[0] == '\n'
    ensures !Holds(v, sep)
  {
    if p :| 0 <= p <= |v| && OccursAt(sep, v, p) {
      assert false;
    }
  }

  lemma SeparatorsSeparate(cs: seq<Item>)
    requires forall k :: 0 <= k < |cs| ==> ItemOk(cs[k])
    ensures AllSeparate(Separators(cs))
  {
    forall k | 0 <= k < |cs| ensures Separates(Separator(cs[k])) {
      ComponentPrintable(cs[k]);
      BreakSeparates(PrintComponent(cs[k]));
    }
  }

  lemma BreakSeparates(t: string)
    requires Printable(t)
    ensures Separates("\n" + (t + ": "))
  {
    PrintableJoin(t, ": ");
  }

  lemma {:induction false} WovenNext(seps: seq<string>, vs: seq<string>, t: string, v: string)
    requires |seps| == |vs|
    ensures Woven(seps + ["\n" + t], vs + [v]) == Woven(seps, vs) + (t + (v + "\n"))
  {
    var s, w := seps + ["\n" + t], vs + [v];
    if vs == [] {
      assert s[1..] == [] && w[1..] == [];
      assert ("\n" + t) + (v + "\n") == "\n" + (t + (v + "\n"));
    } else {
      assert s[1..] == seps[1..] + ["\n" + t] && w[1..] == vs[1..] + [v];
      WovenNext(seps[1..], vs[1..], t, v);
      var rest, last := Woven(seps[1..], vs[1..]), t + (v + "\n");
      assert seps[0] + (vs[0] + (rest + last)) == (seps[0] + (vs[0] + rest)) + last;
    }
  }

  lemma PartsNext(init: seq<Item>, c: Item, value: Item -> Option<string>)
    requires Valued(init, value) && value(c).Some?
    ensures Valued(init + [c], value) && Separators(init + [c]) == Separators(init) + [Separator(c)]
    ensures Values(init + [c], value) == Values(init, value) + [value(c).value]
  {}

  /** The lines of a base are separators and values by turns. */
  lemma {:induction false} LinesWoven(cs: seq<Item>, value: Item -> Option<string>)
    requires BaseLines(cs, value).Some?
    ensures Valued(cs, value) && "\n" + BaseLines(cs, value).value == Woven(Separators(cs), Values(cs, value))
  {
    if cs == [] {
      assert "\n" + "" == "\n";
    } else {
      var init, c := cs[..|cs| - 1], cs[|cs| - 1];
      LinesWoven(init, value);
      assert cs == init + [c];
      PartsNext(init, c, value);
      NextLine(init, c, value, BaseLines(init, value).value);
    }
  }

  lemma NextLine(init: seq<Item>, c: Item, value: Item -> Option<string>, lines: string)
    requires Valued(init, value) && value(c).Some? && "\n" + lines == Woven(Separators(init), Values(init, value))
    ensures "\n" + (lines + Line(c, value(c).value))
         == Woven(Separators(init) + [Separator(c)], Values(init, value) + [value(c).value])
  {
    WovenNext(Separators(init), Values(init, value), PrintComponent(c) + ": ", value(c).value);
    LineIs(lines, c, value(c).value);
  }

  lemma LineIs(lines: string, c: Item, v: string)
    ensures "\n" + (lines + Line(c, v)) == ("\n" + lines) + ((PrintComponent(c) + ": ") + (v + "\n"))
  {
    assert Line(c, v) == (PrintComponent(c) + ": ") + (v + "\n");
  }

  predicate SameValues(cs: seq<Item>, value: Item -> Option<string>, other: Item -> Option<string>)
  {
    forall k :: 0 <= k < |cs| ==> value(cs[k]) == other(cs[k])
  }

  /** Lines depend only on the values of their components. */
  lemma {:induction false} LinesDepend(cs: seq<Item>, value: Item -> Option<string>, other: Item -> Option<string>)
    requires SameValues(cs, value, other)
    ensures BaseLines(cs, value) == BaseLines(cs, other)
  {
    if cs != [] {
      var init := cs[..|cs| - 1];
      forall k | 0 <= k < |init| ensures value(init[k]) == other(init[k]) { assert init[k] == cs[k]; }
      LinesDepend(init, value, other);
    }
  }

  lemma {:induction false} LinesExist(cs: seq<Item>, value: Item -> Option<string>, other: Item -> Option<string>)
    requires BaseLines(cs, value).Some? && Valued(cs, other)
    ensures BaseLines(cs, other).Some?
  {
    if cs != [] {
      var init := cs[..|cs| - 1];
      forall k | 0 <= k < |init| ensures other(init[k]).Some? { assert init[k] == cs[k]; }
      LinesExist(init, value, other);
    }
  }

  lemma {:induction false} ComponentsDiffer(cs: seq<Item>, value: Item -> Option<string>, i: nat, j: nat)
    requires BaseLines(cs, value).Some? && i < j < |cs|
    ensures cs[i] != cs[j]
  {
    var init, c := cs[..|cs| - 1], cs[|cs| - 1];
    if j == |cs| - 1 {
      assert PrintComponent(init[i]) in Texts(init);
    } else {
      ComponentsDiffer(init, value, i, j);
    }
  }

  /** The value that a list of values has for a component. */
  function ValueIn(cs: seq<Item>, ws: seq<string>, i: Item): (r: Option<string>)
    requires |cs| == |ws|
  {
    if cs == [] then None else if cs[0] == i then Some(ws[0]) else ValueIn(cs[1..], ws[1..], i)
  }

  lemma {:induction false} ValueFound(cs: seq<Item>, ws: seq<string>, k: nat)
    requires |cs| == |ws| && k < |cs| && forall i, j :: 0 <= i < j < |cs| ==> cs[i] != cs[j]
    ensures ValueIn(cs, ws, cs[k]) == Some(ws[k])
  {
    if k > 0 { ValueFound(cs[1..], ws[1..], k - 1); }
  }

  lemma WithValues(cs: seq<Item>, value: Item -> Option<string>, ws: seq<string>) returns (other: Item -> Option<string>)
    requires BaseLines(cs, value).Some? && |ws| == |cs|
    ensures forall k :: 0 <= k < |cs| ==> other(cs[k]) == Some(ws[k])
  {
    other := i => ValueIn(cs, ws, i);
    forall i, j | 0 <= i < j < |cs| ensures cs[i] != cs[j] { ComponentsDiffer(cs, value, i, j); }
    forall k | 0 <= k < |cs| ensures other(cs[k]) == Some(ws[k]) { ValueFound(cs, ws, k); }
  }

  lemma UnmixedAreTold(cs: seq<Item>, value: Item -> Option<string>, other: Item -> Option<string>)
    requires (forall k :: 0 <= k < |cs| ==> ItemOk(cs[k])) && BaseLines(cs, value).Some?
    requires BaseLines(cs, value) == BaseLines(cs, other) && Valued(cs, value) && Unmixed(cs, value)
    ensures SameValues(cs, value, other)
  {
    LinesWoven(cs, value);
    LinesWoven(cs, other);
    SeparatorsSeparate(cs);
    UnmixedIsClean(cs, value);
    var vs, ws := Values(cs, value), Values(cs, other);
    CleanIsTold(Separators(cs), vs, ws);
    forall k | 0 <= k < |cs| ensures value(cs[k]) == other(cs[k]) { assert vs[k] == ws[k]; }
  }

  lemma MixedAreNot(cs: seq<Item>, value: Item -> Option<string>) returns (other: Item -> Option<string>)
    requires (forall k :: 0 <= k < |cs| ==> ItemOk(cs[k])) && BaseLines(cs, value).Some? && Valued(cs, value) && !Unmixed(cs, value)
    ensures BaseLines(cs, other) == BaseLines(cs, value) && !SameValues(cs, value, other)
  {
    LinesWoven(cs, value);
    SeparatorsSeparate(cs);
    UnmixedIsClean(cs, value);
    var vs := Values(cs, value);
    var ws := OtherReading(Separators(cs), vs);
    other := WithValues(cs, value, ws);
    SameWoven(cs, value, other, vs, ws);
    OthersDiffer(cs, value, other, vs, ws);
  }

  lemma OthersDiffer(cs: seq<Item>, value: Item -> Option<string>, other: Item -> Option<string>, vs: seq<string>, ws: seq<string>)
    requires |vs| == |ws| == |cs| && vs != ws
    requires forall k :: 0 <= k < |cs| ==> value(cs[k]) == Some(vs[k]) && other(cs[k]) == Some(ws[k])
    ensures !SameValues(cs, value, other)
  {
    var k :| 0 <= k < |ws| && ws[k] != vs[k];
    assert value(cs[k]) != other(cs[k]);
  }

  lemma SameWoven(cs: seq<Item>, value: Item -> Option<string>, other: Item -> Option<string>, vs: seq<string>, ws: seq<string>)
    requires BaseLines(cs, value).Some? && Valued(cs, value) && vs == Values(cs, value) && |ws| == |cs|
    requires (forall k :: 0 <= k < |cs| ==> other(cs[k]) == Some(ws[k])) && Woven(Separators(cs), ws) == Woven(Separators(cs), vs)
    ensures BaseLines(cs, other) == BaseLines(cs, value)
  {
    LinesExist(cs, value, other);
    LinesWoven(cs, value);
    LinesWoven(cs, other);
    assert Values(cs, other) == ws;
    SamePrefix("\n", BaseLines(cs, other).value, BaseLines(cs, value).value);
  }

  /** Every base that is the same names the same components and parameters, and has the same values. */
  ghost predicate Tells(cs: seq<Item>, ps: seq<Param>, value: Item -> Option<string>)
  {
    forall ds: seq<Item>, qs: seq<Param>, other: Item -> Option<string> ::
      ListOk(InnerList(ds, qs)) && BuildBase(ds, qs, other) == BuildBase(cs, ps, value) ==>
        ds == cs && qs == ps && SameValues(cs, value, other)
  }

  /**
   A base tells what was signed if and only if its values are not mixed up with separators; values without line
   breaks never are.
   */
  lemma BaseTells(cs: seq<Item>, ps: seq<Param>, value: Item -> Option<string>)
    requires ListOk(InnerList(cs, ps)) && BuildBase(cs, ps, value).Some?
    ensures Valued(cs, value) && (Tells(cs, ps, value) <==> Unmixed(cs, value))
    ensures Unbroken(cs, value) ==> Tells(cs, ps, value)
  {
    LinesWoven(cs, value);
    if Unbroken(cs, value) { UnbrokenIsUnmixed(cs, value); }
    if Unmixed(cs, value) {
      forall ds: seq<Item>, qs: seq<Param>, other: Item -> Option<string>
        | ListOk(InnerList(ds, qs)) && BuildBase(ds, qs, other) == BuildBase(cs, ps, value)
        ensures ds == cs && qs == ps && SameValues(cs, value, other)
      {
        BaseNames(cs, ps, value, ds, qs, other);
        UnmixedAreTold(cs, value, other);
      }
    } else {
      var other := MixedAreNot(cs, value);
      assert BuildBase(cs, ps, other) == BuildBase(cs, ps, value);
    }
  }

  /** With line breaks in values, different values can make the same base. */
  lemma BrokenLinesConfuse(c: Item, d: Item, ps: seq<Param>, x: string, y: string, z: string,
                           value: Item -> Option<string>, other: Item -> Option<string>)
    requires PrintComponent(c) != PrintComponent(d)
    requires value(c) == Some(x + ("\n" + (PrintComponent(d) + (": " + y)))) && value(d) == Some(z)
    requires other(c) == Some(x) && other(d) == Some(y + ("\n" + (PrintComponent(d) + (": " + z))))
    ensures BuildBase([c, d], ps, value).Some? && BuildBase([c, d], ps, value) == BuildBase([c, d], ps, other)
    ensures value(c) != other(c)
  {
    TwoLines(c, d, value);
    TwoLines(c, d, other);
    SameText(PrintComponent(c), PrintComponent(d), x, y, z);
    assert |value(c).value| > |x|;
  }

  lemma SameText(p: string, q: string, x: string, y: string, z: string)
    ensures (p + (": " + ((x + ("\n" + (q + (": " + y)))) + "\n"))) + (q + (": " + (z + "\n")))
         == (p + (": " + (x + "\n"))) + (q + (": " + ((y + ("\n" + (q + (": " + z)))) + "\n")))
  {
    var a, b := p + (": " + (x + "\n")), q + (": " + y);
    var c := q + (": " + (z + "\n"));
    assert p + (": " + ((x + ("\n" + b)) + "\n")) == a + (b + "\n");
    assert q + (": " + ((y + ("\n" + (q + (": " + z)))) + "\n")) == (b + "\n") + c;
    assert (a + (b + "\n")) + c == a + ((b + "\n") + c);
  }

  lemma TwoLines(c: Item, d: Item, value: Item -> Option<string>)
    requires PrintComponent(c) != PrintComponent(d) && value(c).Some? && value(d).Some?
    ensures BaseLines([c, d], value) == Some(Line(c, value(c).value) + Line(d, value(d).value))
  {
    assert [c, d][..1] == [c] && [c][..0] == [];
    assert BaseLines([c], value) == Some("" + Line(c, value(c).value));
    Nothing(Line(c, value(c).value));
    assert Texts([c]) == {PrintComponent(c)} by {
      TextsNext([], c);
      assert [] + [c] == [c];
    }
  }

  // ----- Signing -----

  const ALGORITHMS: seq<string> :=
    ["hmac-sha256", "hmac-sha512", "rsa-v1_5-sha256", "rsa-v1_5-sha512", "rsa-pss-sha256", "rsa-pss-sha512",
     "ecdsa-p256-sha256", "ecdsa-p384-sha384", "ecdsa-p521-sha512", "ed25519"]

  type Algorithm = a: int | 0 <= a < 10

  /** The algorithm with a registry name. */
  function FromName(name: string, from: nat): (r: Option<Algorithm>)
    requires from <= 10
    decreases 10 - from
  {
    if from == 10 then None else if ALGORITHMS[from] == name then Some(from) else FromName(name, from + 1)
  }

  datatype Signer = Signer(algorithm: Algorithm, created: int, keyid: Option<string>, expires: Option<int>,
                           nonce: Option<string>, tag: Option<string>)

  function OptionalString(name: string, v: Option<string>): (ps: seq<Param>)
  {
    if v.None? then [] else [Param(name, Str(v.value))]
  }

  function OptionalInt(name: string, v: Option<int>): (ps: seq<Param>)
  {
    if v.None? then [] else [Param(name, Int(v.value))]
  }

  function SignerParams(s: Signer): (ps: seq<Param>)
  {
    [Param("created", Int(s.created))] + OptionalString("keyid", s.keyid) + [Param("alg", Str(ALGORITHMS[s.algorithm]))]
    + OptionalInt("expires", s.expires) + OptionalString("nonce", s.nonce) + OptionalString("tag", s.tag)
  }

  /** The parameter list is built by pushing what is set. */
  method ListParams(s: Signer) returns (ps: seq<Param>)
    ensures ps == SignerParams(s)
  {
    ps := [Param("created", Int(s.created))];
    if s.keyid.Some? { ps := ps + [Param("keyid", Str(s.keyid.value))]; }
    ps := ps + [Param("alg", Str(ALGORITHMS[s.algorithm]))];
    if s.expires.Some? { ps := ps + [Param("expires", Int(s.expires.value))]; }
    if s.nonce.Some? { ps := ps + [Param("nonce", Str(s.nonce.value))]; }
    if s.tag.Some? { ps := ps + [Param("tag", Str(s.tag.value))]; }
  }

  datatype Signed = Signed(input: string, signature: seq<byte>)

  function Sign(s: Signer, sign: string -> seq<byte>, cs: seq<Item>, value: Item -> Option<string>): (r: Option<Signed>)
  {
    var base := BuildBase(cs, SignerParams(s), value);
    if base.None? then None else Some(Signed(PrintInnerList(InnerList(cs, SignerParams(s))), sign(base.value)))
  }

  // ----- Verifying -----

  datatype Verifier = Verifier(allowed: seq<Algorithm>, requireCreated: bool, maxAge: Option<int>, now: int)

  datatype Verdict = Accepted | BadInput | PolicyRefused | UnknownAlgorithm | BadBase | BadSignature

  function Lookup(ps: seq<Param>, name: string): (r: Option<Value>)
  {
    if ps == [] then None else if ps[0].name == name then Some(ps[0].value) else Lookup(ps[1..], name)
  }

  function LookupInt(ps: seq<Param>, name: string): (r: Option<int>)
  {
    var v := Lookup(ps, name);
    if v.Some? && v.value.Int? then Some(v.value.n) else None
  }

  /** Subtraction that stops at the bounds of 64-bit integers. */
  function SaturatingSub(a: int, b: int): (d: int)
  {
    var d := a - b;
    if d < -0x8000_0000_0000_0000 then -0x8000_0000_0000_0000
    else if d > 0x7fff_ffff_ffff_ffff then 0x7fff_ffff_ffff_ffff
    else d
  }

  /** The checks on times. */
  predicate Timely(v: Verifier, ps: seq<Param>)
  {
    var created, expires := LookupInt(ps, "created"), LookupInt(ps, "expires");
    && (v.requireCreated ==> created.Some?)
    && (expires.Some? ==> v.now <= expires.value)
    && (created.Some? && v.maxAge.Some? ==> SaturatingSub(v.now, created.value) <= v.maxAge.value)
  }

  /** The verdict on an input that was parsed. */
  function Judge(v: Verifier, algorithm: Algorithm, check: (string, seq<byte>) -> bool, value: Item -> Option<string>,
                 input: Input, signature: seq<byte>): (r: Verdict)
  {
    if v.allowed != [] && algorithm !in v.allowed then PolicyRefused
    else
      var ps := input.params;
      var declared := Lookup(ps, "alg");
      if declared.Some? && declared.value.Str? && FromName(declared.value.s, 0).None? then UnknownAlgorithm
      else if declared.Some? && declared.value.Str? && FromName(declared.value.s, 0) != Some(algorithm) then PolicyRefused
      else if !Timely(v, ps) then PolicyRefused
      else
        var base := BuildBase(input.components, ps, value);
        if base.None? then BadBase else if check(base.value, signature) then Accepted else BadSignature
  }

  function Verify(v: Verifier, algorithm: Algorithm, check: (string, seq<byte>) -> bool, value: Item -> Option<string>,
                  text: string, signature: seq<byte>): (r: Verdict)
  {
    var input := ParseInput(text);
    if input.None? then BadInput else Judge(v, algorithm, check, value, input.value, signature)
  }

  // ----- An honest signature is accepted exactly when the policy allows it -----

  predicate PrintableOption(s: Option<string>)
  {
    s.Some? ==> Printable(s.value)
  }

  predicate Long(n: int)
  {
    -0x8000_0000_0000_0000 <= n < 0x8000_0000_0000_0000
  }

  predicate SignerOk(s: Signer)
  {
    && Long(s.created) && (s.expires.Some? ==> Long(s.expires.value))
    && PrintableOption(s.keyid) && PrintableOption(s.nonce) && PrintableOption(s.tag)
  }

  lemma {:induction false} FromNameFinds(a: Algorithm, from: nat)
    requires from <= a
    ensures FromName(ALGORITHMS[a], from) == Some(a)
    decreases 10 - from
  {
    if from < a {
      NamesDiffer(from, a);
      FromNameFinds(a, from + 1);
    }
  }

  lemma NamesDiffer(a: Algorithm, b: Algorithm)
    requires a < b
    ensures ALGORITHMS[a] != ALGORITHMS[b]
  {
    var x, y := ALGORITHMS[a], ALGORITHMS[b];
    assert |x| == |y| ==> x[|x| - 1] != y[|y| - 1];
  }

  lemma AlgorithmPrintable(a: Algorithm)
    ensures Printable(ALGORITHMS[a])
  {}

  lemma {:induction false} LookupJoined(a: seq<Param>, b: seq<Param>, name: string)
    ensures Lookup(a + b, name) == if Lookup(a, name).Some? then Lookup(a, name) else Lookup(b, name)
  {
    if a == [] {
      Nothing(b);
    } else {
      assert (a + b)[1..] == a[1..] + b;
      LookupJoined(a[1..], b, name);
    }
  }

  lemma ParamsJoinOk(a: seq<Param>, b: seq<Param>)
    requires ParamsOk(a) && ParamsOk(b)
    ensures ParamsOk(a + b)
  {}

  lemma SignerParamsOk(s: Signer)
    requires SignerOk(s)
    ensures ParamsOk(SignerParams(s))
  {
    AlgorithmPrintable(s.algorithm);
    var created, keyid, alg := [Param("created", Int(s.created))], OptionalString("keyid", s.keyid), [Param("alg", Str(ALGORITHMS[s.algorithm]))];
    var expires, nonce, tag := OptionalInt("expires", s.expires), OptionalString("nonce", s.nonce), OptionalString("tag", s.tag);
    NamesOk();
    ParamsJoinOk(created, keyid);
    ParamsJoinOk(created + keyid, alg);
    ParamsJoinOk(created + keyid + alg, expires);
    ParamsJoinOk(created + keyid + alg + expires, nonce);
    ParamsJoinOk(created + keyid + alg + expires + nonce, tag);
  }

  lemma NamesOk()
    ensures AllChars("created", NameChar) && AllChars("keyid", NameChar) && AllChars("alg", NameChar)
    ensures AllChars("expires", NameChar) && AllChars("nonce", NameChar) && AllChars("tag", NameChar)
  {}

  lemma LookupOne(name: string, v: Value, wanted: string)
    ensures Lookup([Param(name, v)], wanted) == if name == wanted then Some(v) else None
  {
    assert [Param(name, v)][1..] == [];
  }

  lemma LookupOptional(name: string, k: Option<string>, wanted: string)
    requires name != wanted
    ensures Lookup(OptionalString(name, k), wanted) == None
  {
    if k.Some? { LookupOne(name, Str(k.value), wanted); }
  }

  /** What the verifier finds among the signer's parameters. */
  lemma SignerLookups(s: Signer)
    ensures LookupInt(SignerParams(s), "created") == Some(s.created)
    ensures Lookup(SignerParams(s), "alg") == Some(Str(ALGORITHMS[s.algorithm]))
    ensures LookupInt(SignerParams(s), "expires") == s.expires
  {
    var created, keyid, alg := [Param("created", Int(s.created))], OptionalString("keyid", s.keyid), [Param("alg", Str(ALGORITHMS[s.algorithm]))];
    var expires, nonce, tag := OptionalInt("expires", s.expires), OptionalString("nonce", s.nonce), OptionalString("tag", s.tag);
    forall wanted ensures Lookup(SignerParams(s), wanted)
      == FirstOf(Lookup(created, wanted), FirstOf(Lookup(keyid, wanted), FirstOf(Lookup(alg, wanted),
         FirstOf(Lookup(expires, wanted), FirstOf(Lookup(nonce, wanted), Lookup(tag, wanted))))))
    {
      LookupJoined(created + keyid + alg + expires + nonce, tag, wanted);
      LookupJoined(created + keyid + alg + expires, nonce, wanted);
      LookupJoined(created + keyid + alg, expires, wanted);
      LookupJoined(created + keyid, alg, wanted);
      LookupJoined(created, keyid, wanted);
    }
    LookupOne("created", Int(s.created), "created");
    LookupOne("created", Int(s.created), "alg");
    LookupOne("created", Int(s.created), "expires");
    LookupOne("alg", Str(ALGORITHMS[s.algorithm]), "alg");
    LookupOne("alg", Str(ALGORITHMS[s.algorithm]), "expires");
    LookupOptional("keyid", s.keyid, "alg");
    LookupOptional("keyid", s.keyid, "expires");
    LookupOptional("nonce", s.nonce, "expires");
    LookupOptional("tag", s.tag, "expires");
    if s.expires.Some? { LookupOne("expires", Int(s.expires.value), "expires"); }
  }

  function FirstOf(a: Option<Value>, b: Option<Value>): (r: Option<Value>)
  {
    if a.Some? then a else b
  }

  /** What the verifier's policy says of a signature, from the signer's settings. */
  predicate PolicyAllows(v: Verifier, s: Signer)
  {
    && (v.allowed == [] || s.algorithm in v.allowed)
    && (s.expires.Some? ==> v.now <= s.expires.value)
    && (v.maxAge.Some? ==> SaturatingSub(v.now, s.created) <= v.maxAge.value)
  }

  lemma JudgeIs(s: Signer, v: Verifier, check: (string, seq<byte>) -> bool, cs: seq<Item>,
                value: Item -> Option<string>, signature: seq<byte>)
    ensures var rebuilt := BuildBase(cs, SignerParams(s), value);
            Judge(v, s.algorithm, check, value, Input(cs, SignerParams(s)), signature)
            == if !PolicyAllows(v, s) then PolicyRefused
               else if rebuilt.None? then BadBase
               else if check(rebuilt.value, signature) then Accepted else BadSignature
  {
    SignerLookups(s);
    FromNameFinds(s.algorithm, 0);
  }

  lemma VerdictIs(s: Signer, v: Verifier, check: (string, seq<byte>) -> bool, cs: seq<Item>,
                  value: Item -> Option<string>, signature: seq<byte>)
    requires SignerOk(s) && forall k :: 0 <= k < |cs| ==> ItemOk(cs[k])
    ensures Verify(v, s.algorithm, check, value, PrintInnerList(InnerList(cs, SignerParams(s))), signature)
         == Judge(v, s.algorithm, check, value, Input(EffectiveAll(cs), SignerParams(s)), signature)
  {
    SignerParamsOk(s);
    InputRoundTrip(cs, SignerParams(s));
  }

  /**
   A signature made over a message is accepted exactly when the policy allows it and the base that the verifier
   rebuilds passes: always, if the components are in normal form, and else only if the check takes another base.
   */
  lemma HonestVerdict(s: Signer, v: Verifier, sign: string -> seq<byte>, check: (string, seq<byte>) -> bool,
                      cs: seq<Item>, value: Item -> Option<string>)
    requires SignerOk(s) && forall k :: 0 <= k < |cs| ==> ItemOk(cs[k])
    requires (forall b :: check(b, sign(b))) && Sign(s, sign, cs, value).Some?
    ensures var signed := Sign(s, sign, cs, value).value;
            var verdict := Verify(v, s.algorithm, check, value, signed.input, signed.signature);
            && (AllNormal(cs) ==> verdict == if PolicyAllows(v, s) then Accepted else PolicyRefused)
            && ((forall b, c :: check(b, sign(c)) ==> b == c) ==> (verdict == Accepted <==> PolicyAllows(v, s) && AllNormal(cs)))
  {
    var signed := Sign(s, sign, cs, value).value;
    VerdictIs(s, v, check, cs, value, signed.signature);
    JudgeIs(s, v, check, EffectiveAll(cs), value, signed.signature);
    SignerParamsOk(s);
    VerifierRebuildsBase(cs, SignerParams(s), value);
  }

  /**
   With a check that takes no other base, a signature is accepted on a message exactly when the policy allows it, the
   components are in normal form, and the message has the lines that were signed. These are the values that were
   signed, if those are not mixed up with separators.
   */
  lemma AcceptedMeansSigned(s: Signer, v: Verifier, sign: string -> seq<byte>, check: (string, seq<byte>) -> bool,
                            cs: seq<Item>, value: Item -> Option<string>, other: Item -> Option<string>)
    requires SignerOk(s) && (forall k :: 0 <= k < |cs| ==> ItemOk(cs[k])) && Sign(s, sign, cs, value).Some?
    requires forall b, c :: check(b, sign(c)) <==> b == c
    ensures var signed := Sign(s, sign, cs, value).value;
            Verify(v, s.algorithm, check, other, signed.input, signed.signature) == Accepted
            <==> PolicyAllows(v, s) && AllNormal(cs) && BaseLines(cs, other) == BaseLines(cs, value)
    ensures Valued(cs, value) && (Unmixed(cs, value) ==> (BaseLines(cs, other) == BaseLines(cs, value) <==> SameValues(cs, value, other)))
  {
    var signed, ps := Sign(s, sign, cs, value).value, SignerParams(s);
    VerdictIs(s, v, check, cs, other, signed.signature);
    JudgeIs(s, v, check, EffectiveAll(cs), other, signed.signature);
    SignerParamsOk(s);
    RebuiltIff(cs, ps, value, other);
    LinesWoven(cs, value);
    if SameValues(cs, value, other) { LinesDepend(cs, value, other); }
    if Unmixed(cs, value) && BaseLines(cs, other) == BaseLines(cs, value) { UnmixedAreTold(cs, value, other); }
  }

  lemma RebuiltIff(cs: seq<Item>, ps: seq<Param>, value: Item -> Option<string>, other: Item -> Option<string>)
    requires ListOk(InnerList(cs, ps)) && BuildBase(cs, ps, value).Some?
    ensures BuildBase(EffectiveAll(cs), ps, other) == BuildBase(cs, ps, value)
       <==> AllNormal(cs) && BaseLines(cs, other) == BaseLines(cs, value)
  {
    NormalIff(cs);
    if BuildBase(EffectiveAll(cs), ps, other) == BuildBase(cs, ps, value) {
      EffectiveOk(cs);
      BaseNames(cs, ps, value, EffectiveAll(cs), ps, other);
    }
  }

  /** The field name "Date" can be signed, but the verifier rebuilds the base for "date". */
  lemma DateIsNotNormal(ps: seq<Param>, value: Item -> Option<string>)
    requires ParamsOk(ps) && value(Item("Date", [])).Some?
    ensures BuildBase([Item("Date", [])], ps, value).Some?
    ensures ParseInput(PrintInnerList(InnerList([Item("Date", [])], ps))) == Some(Input([Item("date", [])], ps))
    ensures BuildBase([Item("date", [])], ps, value) != BuildBase([Item("Date", [])], ps, value)
  {
    var cs := [Item("Date", [])];
    assert LowerCase("Date") == "date" by { LowerDate(); }
    assert EffectiveAll(cs) == [Item("date", [])] by { assert cs[1..] == []; }
    assert !Normal(cs[0]) by { assert "Date"[0] != "date"[0]; }
    assert cs[..0] == [];
    VerifierRebuildsBase(cs, ps, value);
  }

  lemma LowerDate()
    ensures LowerCase("Date") == "date"
  {
    assert "Date"[1..] == "ate" && "ate"[1..] == "te" && "te"[1..] == "e" && "e"[1..] == "";
    assert LowerCase("e") == "e" && LowerCase("te") == "te" && LowerCase("ate") == "ate";
  }
}
