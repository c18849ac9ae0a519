/**
 * The values of a network connection's settings, as the network configuration
 * service hands them over, and their plain-text rendering (`dict_to_string`).
 */
module Settings {
  import opened Common
  import opened OrderedDict

  /** An element of a D-Bus array. Elements of any other D-Bus type are `OtherElt`. */
  datatype Elem = ByteElt(b: byte) | StringElt(s: string) | OtherElt

  /**
   * A setting value: a D-Bus array, a nested D-Bus dictionary (its entries in
   * iteration order), or any other value, given by the text `str()` makes of it.
   */
  datatype Value =
    | Array(elts: seq<Elem>)
    | Dict(entries: seq<(string, Value)>)
    | Scalar(text: string)

  /** One setting of a connection: property name to value. */
  type Dict = seq<(string, Value)>

  /** A connection's configuration: setting name (such as "802-11-wireless") to setting. */
  type Config = seq<(string, Dict)>

  /** `config[name][k]`, if both exist. */
  function Lookup(config: Config, name: string, k: string): Option<Value> {
    match Get(config, name)
    case None => None
    case Some(body) => Get(body, k)
  }

  const Indent := "    "

  // ---------------------------------------------------------------------------
  // Decimal text of a byte (`"%s" % int(elt)`)

  predicate IsDigit(c: char) {
    '0' <= c <= '9'
  }

  function Digit(n: nat): (c: char)
    requires n < 10
    ensures IsDigit(c)
  {
    ('0' as int + n) as char
  }

  /** Canonical decimal text: digits only, and no leading zero except for 0 itself. */
  function DecimalText(n: nat): (r: string)
    ensures |r| >= 1
    ensures forall i :: 0 <= i < |r| ==> IsDigit(r[i])
    ensures r[0] == '0' <==> n == 0
    ensures |r| == 1 || r[0] != '0'
    decreases n
  {
    if n < 10 then [Digit(n)] else DecimalText(n / 10) + [Digit(n % 10)]
  }

  function DigitValue(c: char): nat {
    if '0' <= c <= '9' then (c as int) - ('0' as int) else 0
  }

  /** The number a string of decimal digits denotes. */
  function DecimalValue(s: string): nat {
    if s == [] then 0 else 10 * DecimalValue(s[..|s| - 1]) + DigitValue(s[|s| - 1])
  }

  /** Reading back the decimal text of a number gives the number. */
  lemma {:induction false} DecimalRoundTrip(n: nat)
    ensures DecimalValue(DecimalText(n)) == n
  {
    var r := DecimalText(n);
    if n < 10 {
      assert r[..0] == [];
    } else {
      DecimalRoundTrip(n / 10);
      assert r[..|r| - 1] == DecimalText(n / 10);
    }
  }

  // ---------------------------------------------------------------------------
  // Rendering (read_connections.py, dict_to_string)

  /** The text one array element adds: a byte's decimal value and a space, or a string. */
  function ElemText(e: Elem): string {
    match e
    case ByteElt(b) => DecimalText(b) + " "
    case StringElt(s) => s
    case OtherElt => ""
  }

  /** The text of an array: its elements' texts, in order. */
  function ElementsText(elts: seq<Elem>): string {
    if elts == [] then "" else ElementsText(elts[..|elts| - 1]) + ElemText(elts[|elts| - 1])
  }

  /** The text of a dictionary at the given indentation: entries in iteration order. */
  function Render(d: Dict, indent: string): string
    decreases d
  {
    if d == [] then "" else Render(d[..|d| - 1], indent) + RenderEntry(d[|d| - 1], indent)
  }

  /**
   * One entry: a nested dictionary is rendered one level deeper and adds no
   * line of its own; any other value is one line `indent key: text`.
   */
  function RenderEntry(e: (string, Value), indent: string): string
    decreases e
  {
    match e.1
    case Dict(sub) => Render(sub, indent + Indent)
    case Array(elts) => indent + e.0 + ": " + ElementsText(elts) + "\n"
    case Scalar(t) => indent + e.0 + ": " + t + "\n"
  }

  lemma RenderStep(d: Dict, i: nat, indent: string)
    requires i < |d|
    ensures Render(d[..i + 1], indent) == Render(d[..i], indent) + RenderEntry(d[i], indent)
  {
    assert d[..i + 1][..i] == d[..i];
  }

  lemma ElementsStep(elts: seq<Elem>, j: nat)
    requires j < |elts|
    ensures ElementsText(elts[..j + 1]) == ElementsText(elts[..j]) + ElemText(elts[j])
  {
    assert elts[..j + 1][..j] == elts[..j];
  }

  /**
   * `dict_to_string(d, indent)`: walks the entries in order, accumulating the
   * text; arrays are turned into text element by element.
   */
  method DictToString(d: Dict, indent: string) returns (dstr: string)
    ensures dstr == Render(d, indent)
    decreases Value.Dict(d)
  {
    dstr := "";
    for i := 0 to |d|
      invariant dstr == Render(d[..i], indent)
    {
      var (key, val) := d[i];
      ghost var before := dstr;
      var strVal := "";
      var addString := true;
      match val {
        case Array(elts) =>
          for j := 0 to |elts|
            invariant strVal == ElementsText(elts[..j])
          {
            ElementsStep(elts, j);
            match elts[j] {
              case ByteElt(b) => strVal := strVal + (DecimalText(b) + " ");
              case StringElt(s) => strVal := strVal + s;
              case OtherElt =>
            }
          }
          assert elts[..|elts|] == elts;
        case Dict(sub) =>
          var nested := DictToString(sub, indent + Indent);
          dstr := dstr + nested;
          addString := false;
        case Scalar(t) =>
          strVal := t;
      }
      if addString {
        dstr := dstr + (indent + key + ": " + strVal + "\n");
      }
      assert dstr == before + RenderEntry(d[i], indent);
      RenderStep(d, i, indent);
    }
    assert d[..|d|] == d;
  }

  // ---------------------------------------------------------------------------
  // An independent description of the rendering: the flat list of lines it prints

  /** A printed line: the nesting depth of its dictionary, the key and the value text. */
  datatype Line = Line(depth: nat, key: string, text: string)

  /** The lines a dictionary prints, in order: one per non-dictionary value, at any depth. */
  function Lines(d: Dict): seq<Line>
    decreases d
  {
    if d == [] then [] else Lines(d[..|d| - 1]) + EntryLines(d[|d| - 1])
  }

  function EntryLines(e: (string, Value)): seq<Line>
    decreases e
  {
    match e.1
    case Dict(sub) => Deeper(Lines(sub))
    case Array(elts) => [Line(0, e.0, ElementsText(elts))]
    case Scalar(t) => [Line(0, e.0, t)]
  }

  function Deeper(ls: seq<Line>): seq<Line> {
    seq(|ls|, i requires 0 <= i < |ls| => ls[i].(depth := ls[i].depth + 1))
  }

  /** `n` levels of indentation. */
  function Spaces(n: nat): string {
    if n == 0 then "" else Indent + Spaces(n - 1)
  }

  /** Prints lines, each indented by `indent` and four spaces per level of depth. */
  function LayOut(ls: seq<Line>, indent: string): string {
    if ls == [] then "" else LayOut(ls[..|ls| - 1], indent) + LineText(ls[|ls| - 1], indent)
  }

  function LineText(l: Line, indent: string): string {
    indent + Spaces(l.depth) + l.key + ": " + l.text + "\n"
  }

  lemma {:induction false} LayOutAppend(a: seq<Line>, b: seq<Line>, indent: string)
    ensures LayOut(a + b, indent) == LayOut(a, indent) + LayOut(b, indent)
    decreases |b|
  {
    if b == [] {
      assert a + b == a;
    } else {
      var ab, b', last := a + b, b[..|b| - 1], b[|b| - 1];
      assert ab[..|ab| - 1] == a + b' && ab[|ab| - 1] == last;
      LayOutAppend(a, b', indent);
      var x, y, z := LayOut(a, indent), LayOut(b', indent), LineText(last, indent);
      calc {
        LayOut(ab, indent);
        LayOut(a + b', indent) + z;
        (x + y) + z;
        x + (y + z);
        x + LayOut(b, indent);
      }
    }
  }

  lemma LineTextDeeper(l: Line, indent: string)
    ensures LineText(l.(depth := l.depth + 1), indent) == LineText(l, indent + Indent)
  {
    assert Spaces(l.depth + 1) == Indent + Spaces(l.depth);
  }

  lemma {:induction false} LayOutDeeper(ls: seq<Line>, indent: string)
    ensures LayOut(Deeper(ls), indent) == LayOut(ls, indent + Indent)
    decreases |ls|
  {
    if ls != [] {
      var n := |ls|;
      var dl := Deeper(ls);
      assert dl[..n - 1] == Deeper(ls[..n - 1]);
      assert dl[n - 1] == ls[n - 1].(depth := ls[n - 1].depth + 1);
      LayOutDeeper(ls[..n - 1], indent);
      LineTextDeeper(ls[n - 1], indent);
      assert LayOut(dl, indent) == LayOut(dl[..n - 1], indent) + LineText(dl[n - 1], indent);
      assert LayOut(ls, indent + Indent) == LayOut(ls[..n - 1], indent + Indent) + LineText(ls[n - 1], indent + Indent);
    }
  }

  /**
   * Rendering a dictionary prints exactly its lines: one `key: text` line per
   * non-dictionary value, indented four spaces per level of nesting, and nothing
   * for the key of a nested dictionary.
   */
  lemma {:induction false} RenderLayOut(d: Dict, indent: string)
    ensures Render(d, indent) == LayOut(Lines(d), indent)
    decreases d
  {
    if d != [] {
      RenderLayOut(d[..|d| - 1], indent);
      RenderEntryLayOut(d[|d| - 1], indent);
      LayOutAppend(Lines(d[..|d| - 1]), EntryLines(d[|d| - 1]), indent);
    }
  }

  lemma {:induction false} RenderEntryLayOut(e: (string, Value), indent: string)
    ensures RenderEntry(e, indent) == LayOut(EntryLines(e), indent)
    decreases e
  {
    match e.1
    case Dict(sub) =>
      RenderLayOut(sub, indent + Indent);
      LayOutDeeper(Lines(sub), indent);
    case Array(elts) =>
      assert [Line(0, e.0, ElementsText(elts))][..0] == [];
    case Scalar(t) =>
      assert [Line(0, e.0, t)][..0] == [];
  }

  // ---------------------------------------------------------------------------
  // One printed line per value

  function NewlineCount(s: string): nat {
    if s == [] then 0 else NewlineCount(s[..|s| - 1]) + (if s[|s| - 1] == '\n' then 1 else 0)
  }

  lemma {:induction false} NewlineCountAppend(a: string, b: string)
    ensures NewlineCount(a + b) == NewlineCount(a) + NewlineCount(b)
    decreases |b|
  {
    if b == [] {
      assert a + b == a;
    } else {
      assert (a + b)[..|a + b| - 1] == a + b[..|b| - 1];
      NewlineCountAppend(a, b[..|b| - 1]);
    }
  }

  lemma {:induction false} NoNewlineCount(s: string)
    requires '\n' !in s
    ensures NewlineCount(s) == 0
    decreases |s|
  {
    if s != [] {
      NoNewlineCount(s[..|s| - 1]);
    }
  }

  /** Every key, indentation and value text of the printed lines is free of line breaks. */
  predicate SingleLineTexts(ls: seq<Line>, indent: string) {
    '\n' !in indent && forall i :: 0 <= i < |ls| ==> '\n' !in ls[i].key + ls[i].text
  }

  lemma {:induction false} SpacesNoNewline(n: nat)
    ensures '\n' !in Spaces(n)
  {
    if n > 0 {
      SpacesNoNewline(n - 1);
    }
  }

  /** When no key or value text holds a line break, the output has exactly one line per printed value. */
  lemma {:induction false} RenderLineCount(d: Dict, indent: string)
    requires SingleLineTexts(Lines(d), indent)
    ensures NewlineCount(Render(d, indent)) == |Lines(d)|
  {
    RenderLayOut(d, indent);
    LayOutLineCount(Lines(d), indent);
  }

  lemma {:induction false} LayOutLineCount(ls: seq<Line>, indent: string)
    requires SingleLineTexts(ls, indent)
    ensures NewlineCount(LayOut(ls, indent)) == |ls|
    decreases |ls|
  {
    if ls != [] {
      var l := ls[|ls| - 1];
      var head := indent + Spaces(l.depth) + l.key + ": " + l.text;
      assert LineText(l, indent) == head + "\n";
      LayOutLineCount(ls[..|ls| - 1], indent);
      SpacesNoNewline(l.depth);
      assert '\n' !in l.key + l.text;
      assert '\n' !in head by {
        forall c | c in head ensures c != '\n' {
          assert c in indent || c in Spaces(l.depth) || c in l.key + l.text || c in ": " by {
            assert c in indent || c in Spaces(l.depth) || c in l.key || c in ": " || c in l.text;
          }
        }
      }
      NoNewlineCount(head);
      NewlineCountAppend(LayOut(ls[..|ls| - 1], indent), head + "\n");
      NewlineCountAppend(head, "\n");
      assert LayOut(ls, indent) == LayOut(ls[..|ls| - 1], indent) + (head + "\n");
    }
  }

  // ---------------------------------------------------------------------------
  // Arrays of bytes and arrays of strings

  function ByteElts(bs: seq<byte>): (es: seq<Elem>)
    ensures |es| == |bs|
  {
    seq(|bs|, i requires 0 <= i < |bs| => ByteElt(bs[i]))
  }

  function StringElts(ss: seq<string>): (es: seq<Elem>)
    ensures |es| == |ss|
  {
    seq(|ss|, i requires 0 <= i < |ss| => StringElt(ss[i]))
  }

  /** The start of the run of decimal digits that ends `s`. */
  function DigitRunStart(s: string): (k: nat)
    ensures k <= |s|
    ensures forall i :: k <= i < |s| ==> IsDigit(s[i])
  {
    if s == [] || !IsDigit(s[|s| - 1]) then |s| else DigitRunStart(s[..|s| - 1])
  }

  /** Reads back the text of a byte array: numbers, each followed by one space. */
  function ReadBytes(s: string): Option<seq<byte>>
    decreases |s|
  {
    if s == [] then Some([])
    else if s[|s| - 1] != ' ' then None
    else
      var body := s[..|s| - 1];
      var k := DigitRunStart(body);
      var n := DecimalValue(body[k..]);
      if k == |body| || n >= 256 then None
      else
        match ReadBytes(body[..k])
        case None => None
        case Some(bs) => Some(bs + [n])
  }

  lemma {:induction false} DigitRunStartAfter(p: string, ds: string)
    requires DigitRunStart(p) == |p|
    requires forall i :: 0 <= i < |ds| ==> IsDigit(ds[i])
    ensures DigitRunStart(p + ds) == |p|
    decreases |ds|
  {
    if ds == [] {
      assert p + ds == p;
    } else {
      var pd := p + ds;
      assert pd[|pd| - 1] == ds[|ds| - 1];
      assert pd[..|pd| - 1] == p + ds[..|ds| - 1];
      DigitRunStartAfter(p, ds[..|ds| - 1]);
    }
  }

  lemma {:induction false} ByteTextEnd(bs: seq<byte>)
    ensures var t := ElementsText(ByteElts(bs)); t == [] || t[|t| - 1] == ' '
  {
    if bs != [] {
      assert ElementsText(ByteElts(bs)) == ElementsText(ByteElts(bs)[..|bs| - 1]) + DecimalText(bs[|bs| - 1]) + " ";
    }
  }

  /** Reading one more number followed by a space after a complete prefix. */
  lemma ReadBytesStep(t: string, b: byte)
    requires DigitRunStart(t) == |t|
    ensures ReadBytes(t + DecimalText(b) + " ") == match ReadBytes(t)
                                                 case None => None
                                                 case Some(bs) => Some(bs + [b])
  {
    var ds := DecimalText(b);
    var s := t + ds + " ";
    var body := s[..|s| - 1];
    assert body == t + ds;
    DigitRunStartAfter(t, ds);
    assert body[|t|..] == ds && body[..|t|] == t;
    DecimalRoundTrip(b);
  }

  /** The text of a byte array reads back as the same bytes. */
  lemma {:induction false} ByteArrayRoundTrip(bs: seq<byte>)
    ensures ReadBytes(ElementsText(ByteElts(bs))) == Some(bs)
    decreases |bs|
  {
    if bs != [] {
      var front, b := bs[..|bs| - 1], bs[|bs| - 1];
      assert bs == front + [b];
      assert ByteElts(bs)[..|bs| - 1] == ByteElts(front);
      var t := ElementsText(ByteElts(front));
      assert ElementsText(ByteElts(bs)) == t + DecimalText(b) + " ";
      ByteTextEnd(front);
      assert DigitRunStart(t) == |t|;
      ReadBytesStep(t, b);
      ByteArrayRoundTrip(front);
    }
  }

  /** An array's text is its two parts' texts, one after the other. */
  lemma {:induction false} ElementsTextAppend(a: seq<Elem>, b: seq<Elem>)
    ensures ElementsText(a + b) == ElementsText(a) + ElementsText(b)
    decreases |b|
  {
    if b == [] {
      assert a + b == a;
    } else {
      var ab, b', last := a + b, b[..|b| - 1], b[|b| - 1];
      assert ab[..|ab| - 1] == a + b' && ab[|ab| - 1] == last;
      ElementsTextAppend(a, b');
      var x, y, z := ElementsText(a), ElementsText(b'), ElemText(last);
      calc {
        ElementsText(ab);
        ElementsText(a + b') + z;
        (x + y) + z;
        x + (y + z);
        x + ElementsText(b);
      }
    }
  }

  function Concat(ss: seq<string>): string {
    if ss == [] then "" else ss[0] + Concat(ss[1..])
  }

  /** The text of a string array is its strings joined with nothing between them. */
  lemma {:induction false} StringArrayText(ss: seq<string>)
    ensures ElementsText(StringElts(ss)) == Concat(ss)
    decreases |ss|
  {
    if ss != [] {
      var one := [StringElt(ss[0])];
      assert StringElts(ss) == one + StringElts(ss[1..]);
      ElementsTextAppend(one, StringElts(ss[1..]));
      assert one[..0] == [];
      assert ElementsText(one) == "" + ss[0] == ss[0];
      StringArrayText(ss[1..]);
    }
  }
}

