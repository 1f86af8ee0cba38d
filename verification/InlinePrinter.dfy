/** How `toml_formatter` of `toml.hpp` prints values, arrays and inline tables. */
module InlinePrinters {
  import opened DateTimes
  import opened Integers
  import opened Keys
  import opened StringPrinter
  import opened TomlValues

  /**
    A formatter's configuration. `wide` decides whether an array is too wide for one line at an
    indentation, and `floatText` prints a float; nothing is known of either.
  */
  datatype Config = Config(strings: StringFlags, ints: IntFlags, terse: bool, forceMultiLine: bool,
                           indentElements: bool, indent: string, wide: (seq<Value>, int) -> bool, floatText: nat -> string)

  function Indentation(cfg: Config, n: int): string
    decreases if n > 0 then n else 0
  {
    if n <= 0 then "" else cfg.indent + Indentation(cfg, n - 1)
  }

  function LineStart(cfg: Config, indent: int): string {
    "\n" + Indentation(cfg, indent)
  }

  predicate IsMultiLine(cfg: Config, es: seq<Value>, indent: int) {
    cfg.forceMultiLine || cfg.wide(es, indent)
  }

  function InnerIndent(cfg: Config, indent: int): int {
    (if indent < 0 then 0 else indent) + if cfg.indentElements then 1 else 0
  }

  function Equals(cfg: Config): string {
    if cfg.terse then "=" else " = "
  }

  function ScalarText(cfg: Config, v: Value): string
    requires !v.Array? && !v.Table?
  {
    match v
    case Integer(n, f) => IntegerText(n, PrintBase(n, f, cfg.ints))
    case Boolean(b) => if b then "true" else "false"
    case String(s) => StringText(s, VALUE_USE, cfg.strings)
    case LocalDate(d) => DateText(d)
    case LocalTime(t) => TimeText(t)
    case Moment(m) => MomentText(m)
    case Float(bits) => cfg.floatText(bits)
  }

  /** What is printed for a value at an indentation. */
  function ValueText(cfg: Config, v: Value, indent: int): string
    decreases v, 0
  {
    match v
    case Array(es) =>
      if es == [] then "[]"
      else if IsMultiLine(cfg, es, indent) then
        "[" + ElementsText(cfg, es, true, true, InnerIndent(cfg, indent)) + (LineStart(cfg, indent) + "]")
      else
        "[ " + ElementsText(cfg, es, true, false, indent) + " ]"
    case Table(es) => if es == [] then "{}" else "{ " + EntriesText(cfg, es, true, indent) + " }"
    case _ => ScalarText(cfg, v)
  }

  /** What comes before an element of an array. */
  function Lead(cfg: Config, first: bool, multi: bool, indent: int): string {
    (if first then "" else if multi then "," else ", ") + if multi then LineStart(cfg, indent) else ""
  }

  function ElementsText(cfg: Config, es: seq<Value>, first: bool, multi: bool, indent: int): string
    decreases es, 1
  {
    if es == [] then "" else
      Lead(cfg, first, multi, indent) + (ValueText(cfg, es[0], indent) + ElementsText(cfg, es[1..], false, multi, indent))
  }

  function PairText(cfg: Config, e: Entry, first: bool): string {
    (if first then "" else ", ") + (KeyText(e.key, cfg.strings) + Equals(cfg))
  }

  function EntriesText(cfg: Config, es: seq<Entry>, first: bool, indent: int): string
    decreases es, 1
  {
    if es == [] then "" else
      PairText(cfg, es[0], first) + (ValueText(cfg, es[0].value, indent) + EntriesText(cfg, es[1..], false, indent))
  }

  /** The `print` functions of the values that are neither arrays nor tables. */
  method FormatScalar(cfg: Config, v: Value) returns (s: string)
    requires !v.Array? && !v.Table?
    ensures s == ScalarText(cfg, v)
  {
    hide IntegerText, StringText, DateText, TimeText, MomentText;
    match v
    case Integer(n, f) => s := PrintInteger(n, f, cfg.ints);
    case Boolean(b) => s := if b then "true" else "false";
    case String(str) => s := PrintString(str, VALUE_USE, cfg.strings);
    case LocalDate(d) => s := PrintDate(d);
    case LocalTime(t) => s := PrintTime(t);
    case Moment(m) => s := PrintDateTime(m);
    case Float(bits) => s := cfg.floatText(bits);
  }

  /** `toml_formatter`: its stream and its indentation. */
  class TomlFormatter {
    const cfg: Config
    var out: string
    var indent: int

    constructor (cfg: Config)
      ensures this.cfg == cfg && out == "" && indent == 0
    {
      this.cfg := cfg;
      out, indent := "", 0;
    }

    method PrintUnformatted(s: string)
      modifies this`out
      ensures out == old(out) + s
    {
      out := out + s;
    }

    /** `print_newline(true)` and `print_indent`. */
    method PrintLineStart()
      modifies this`out
      ensures out == old(out) + LineStart(cfg, indent)
    {
      out := out + "\n";
      ghost var before := out;
      var i := 0;
      assert before + Indentation(cfg, indent) == old(out) + LineStart(cfg, indent);
      while i < indent
        invariant 0 <= i && (i <= indent || indent <= 0)
        invariant before + Indentation(cfg, indent) == out + Indentation(cfg, indent - i)
      {
        assert out + (cfg.indent + Indentation(cfg, indent - i - 1)) == out + cfg.indent + Indentation(cfg, indent - i - 1);
        out := out + cfg.indent;
        i := i + 1;
      }
    }

    method Print(v: Value)
      modifies this
      ensures out == old(out) + ValueText(cfg, v, indent) && indent == old(indent)
      decreases v, 2
    {
      hide ElementsText, EntriesText, ScalarText;
      match v
      case Array(es) => PrintArray(v);
      case Table(es) => PrintInline(v);
      case _ => PrintScalar(v);
    }

    /** `print_value`. */
    method PrintScalar(v: Value)
      requires !v.Array? && !v.Table?
      modifies this`out
      ensures out == old(out) + ScalarText(cfg, v)
    {
      hide ScalarText;
      var s := FormatScalar(cfg, v);
      PrintUnformatted(s);
    }

    /** `print` of an array. */
    method PrintArray(arr: Value)
      requires arr.Array?
      modifies this
      ensures out == old(out) + ValueText(cfg, arr, indent) && indent == old(indent)
      decreases arr, 1
    {
      if arr.elems == [] {
        PrintUnformatted("[]");
        return;
      }
      var originalIndent := indent;
      var multi := cfg.forceMultiLine || cfg.wide(arr.elems, indent);
      PrintUnformatted("[");
      if multi {
        if originalIndent < 0 { indent := 0; }
        if cfg.indentElements { indent := indent + 1; }
      } else {
        PrintUnformatted(" ");
      }
      ghost var head, inner := out, indent;
      PrintElements(arr, multi);
      ghost var body := ElementsText(cfg, arr.elems, true, multi, inner);
      if multi {
        indent := originalIndent;
        PrintLineStart();
      } else {
        PrintUnformatted(" ");
      }
      PrintUnformatted("]");
      if multi {
        JoinMulti(old(out), body, LineStart(cfg, originalIndent));
      } else {
        JoinSingle(old(out), body);
      }
    }

    /** The loop of `print` of an array. */
    method PrintElements(arr: Value, multi: bool)
      requires arr.Array?
      modifies this
      ensures out == old(out) + ElementsText(cfg, arr.elems, true, multi, indent) && indent == old(indent)
      decreases arr, 0
    {
      hide ValueText, ElementsText, LineStart;
      var es := arr.elems;
      ElementsBegin(cfg, es, multi, indent, out);
      for i := 0 to |es|
        invariant indent == old(indent)
        invariant old(out) + ElementsText(cfg, es, true, multi, indent)
               == out + ElementsText(cfg, es[i..], i == 0, multi, indent)
      {
        ElementsStep(cfg, es, i, multi, indent, out);
        if i > 0 {
          PrintUnformatted(",");
          if !multi { PrintUnformatted(" "); }
        }
        if multi { PrintLineStart(); }
        LeadIs(cfg, i == 0, multi, indent);
        Print(es[i]);
      }
      ElementsEnd(cfg, es, multi, indent, out);
    }

    /** `print_inline`. */
    method PrintInline(tbl: Value)
      requires tbl.Table?
      modifies this
      ensures out == old(out) + ValueText(cfg, tbl, indent) && indent == old(indent)
      decreases tbl, 1
    {
      if tbl.entries == [] {
        PrintUnformatted("{}");
        return;
      }
      PrintUnformatted("{ ");
      PrintEntries(tbl);
      PrintUnformatted(" }");
      JoinTable(old(out), EntriesText(cfg, tbl.entries, true, indent));
    }

    /** The loop of `print_inline`. */
    method PrintEntries(tbl: Value)
      requires tbl.Table?
      modifies this
      ensures out == old(out) + EntriesText(cfg, tbl.entries, true, indent) && indent == old(indent)
      decreases tbl, 0
    {
      hide ValueText, EntriesText, KeyText;
      var es := tbl.entries;
      EntriesBegin(cfg, es, indent, out);
      var first := false;
      for i := 0 to |es|
        invariant indent == old(indent) && first == (i > 0)
        invariant old(out) + EntriesText(cfg, es, true, indent) == out + EntriesText(cfg, es[i..], i == 0, indent)
      {
        EntriesStep(cfg, es, i, indent, out);
        ghost var before := out;
        if first { PrintUnformatted(", "); }
        first := true;
        var key := PrintKey(es[i].key, cfg.strings);
        PrintUnformatted(key);
        PrintUnformatted(if cfg.terse then "=" else " = ");
        PairIs(cfg, es[i], i == 0, before);
        Print(es[i].value);
      }
      EntriesEnd(cfg, es, indent, out);
    }
  }

  lemma JoinMulti(a: string, body: string, line: string)
    ensures a + "[" + body + line + "]" == a + ("[" + body + (line + "]"))
  {}

  lemma JoinSingle(a: string, body: string)
    ensures a + "[" + " " + body + " " + "]" == a + ("[ " + body + " ]")
  {}

  lemma JoinTable(a: string, body: string)
    ensures a + "{ " + body + " }" == a + ("{ " + body + " }")
  {}

  lemma ElementsBegin(cfg: Config, es: seq<Value>, multi: bool, indent: int, out: string)
    ensures out + ElementsText(cfg, es, true, multi, indent) == out + ElementsText(cfg, es[0..], true, multi, indent)
  {
    assert es[0..] == es;
  }

  lemma ElementsEnd(cfg: Config, es: seq<Value>, multi: bool, indent: int, out: string)
    ensures out + ElementsText(cfg, es[|es|..], |es| == 0, multi, indent) == out
  {}

  lemma ElementsStep(cfg: Config, es: seq<Value>, i: nat, multi: bool, indent: int, out: string)
    requires i < |es|
    ensures out + ElementsText(cfg, es[i..], i == 0, multi, indent)
         == out + Lead(cfg, i == 0, multi, indent) + ValueText(cfg, es[i], indent)
            + ElementsText(cfg, es[i + 1..], false, multi, indent)
  {
    hide ValueText, Lead;
    var tail := es[i..];
    assert tail[0] == es[i] && tail[1..] == es[i + 1..];
    Join3(out, Lead(cfg, i == 0, multi, indent), ValueText(cfg, es[i], indent),
          ElementsText(cfg, es[i + 1..], false, multi, indent));
  }

  lemma Join3(a: string, b: string, c: string, d: string)
    ensures a + (b + (c + d)) == a + b + c + d
  {}

  lemma LeadIs(cfg: Config, first: bool, multi: bool, indent: int)
    ensures forall a: string ::
              (a + Lead(cfg, first, multi, indent)
               == a + (if first then "" else ",") + (if !first && !multi then " " else "")
                  + if multi then LineStart(cfg, indent) else "")
  {}

  lemma EntriesBegin(cfg: Config, es: seq<Entry>, indent: int, out: string)
    ensures out + EntriesText(cfg, es, true, indent) == out + EntriesText(cfg, es[0..], true, indent)
  {
    assert es[0..] == es;
  }

  lemma EntriesEnd(cfg: Config, es: seq<Entry>, indent: int, out: string)
    ensures out + EntriesText(cfg, es[|es|..], |es| == 0, indent) == out
  {}

  lemma EntriesStep(cfg: Config, es: seq<Entry>, i: nat, indent: int, out: string)
    requires i < |es|
    ensures out + EntriesText(cfg, es[i..], i == 0, indent)
         == out + PairText(cfg, es[i], i == 0) + ValueText(cfg, es[i].value, indent)
            + EntriesText(cfg, es[i + 1..], false, indent)
  {
    hide ValueText, PairText;
    var tail := es[i..];
    assert tail[0] == es[i] && tail[1..] == es[i + 1..];
    Join3(out, PairText(cfg, es[i], i == 0), ValueText(cfg, es[i].value, indent),
          EntriesText(cfg, es[i + 1..], false, indent));
  }

  lemma PairIs(cfg: Config, e: Entry, first: bool, a: string)
    ensures a + PairText(cfg, e, first)
         == (if first then a else a + ", ") + KeyText(e.key, cfg.strings) + Equals(cfg)
  {
    hide KeyText;
    var k := KeyText(e.key, cfg.strings);
    if first {
      assert a + ("" + (k + Equals(cfg))) == a + k + Equals(cfg);
    } else {
      assert a + (", " + (k + Equals(cfg))) == a + ", " + k + Equals(cfg);
    }
  }
}
