/**
  The text printer of lib/prom/src/prom_metric_formatter.c. Every call appends to one string
  builder; `pmf_dump` hands the text out and empties it.
  */
module Formatters {
  import opened Prelude
  import opened StringBuilders
  import opened LValues

  datatype MetricType = Counter | Gauge | Histogram | Summary | Untyped

  function TypeName(t: MetricType): string {
    match t
    case Counter => "counter"
    case Gauge => "gauge"
    case Histogram => "histogram"
    case Summary => "summary"
    case Untyped => "untyped"
  }

  function Prefix(prefix: Option<string>): string {
    match prefix
    case None => ""
    case Some(p) => p
  }

  function HelpText(prefix: Option<string>, name: string, help: Option<string>): string {
    if help.None? then "" else "# HELP " + Prefix(prefix) + name + " " + help.value + "\n"
  }

  function TypeText(prefix: Option<string>, name: string, t: MetricType): string {
    "# TYPE " + Prefix(prefix) + name + " " + TypeName(t) + "\n"
  }

  /** One sample line; `number` stands for the printing of doubles. */
  function SampleText(number: real -> string, prefix: Option<string>, lValue: string, value: real): string {
    Prefix(prefix) + lValue + " " + number(value) + "\n"
  }

  lemma HelpTextParts(prefix: Option<string>, name: string, help: string)
    ensures HelpText(prefix, name, Some(help))
            == "" + "# HELP " + Prefix(prefix) + name + [' '] + help + ['\n']
  {
    assert "" + "# HELP " == "# HELP ";
  }

  lemma TypeTextParts(prefix: Option<string>, name: string, t: MetricType)
    ensures TypeText(prefix, name, t)
            == "" + "# TYPE " + Prefix(prefix) + name + [' '] + TypeName(t) + ['\n']
  {
    hide TypeName;
    assert "" + "# TYPE " == "# TYPE ";
  }

  lemma LValueParts(name: string, suffix: Option<string>, keys: seq<string>, values: seq<string>)
    requires |keys| <= |values|
    ensures FullName(name, suffix) == if suffix.None? then "" + name else "" + name + ['_'] + suffix.value
    ensures LValue(name, suffix, keys, values)
            == if keys == [] then FullName(name, suffix)
               else FullName(name, suffix) + "{" + PrintLabels(Labels(keys, values)) + ['}']
    ensures FullName(name, suffix) + ['{'] == FullName(name, suffix) + "{"
    ensures |Labels(keys, values)| == |keys|
  {
    assert "" + name == name;
  }

  lemma SampleTextParts(number: real -> string, prefix: Option<string>, lValue: string, value: real)
    ensures SampleText(number, prefix, lValue, value)
            == "" + Prefix(prefix) + lValue + (" " + number(value)) + ['\n']
  {
    assert "" + Prefix(prefix) == Prefix(prefix);
  }

  /** One round of the label loop, starting from any text. */
  lemma TerminatedStep(printed: string, ls: seq<Label>, i: nat)
    requires i < |ls|
    ensures printed + PrintTerminated(ls[..i]) + ls[i].key + "=\"" + ls[i].value + "\","
            == printed + PrintTerminated(ls[..i + 1])
  {
    assert ls[..i + 1][..i] == ls[..i];
  }

  class Formatter {
    const builder: StringBuilder
    const number: real -> string    // sprintf with "%.17g"

    ghost predicate Valid()
      reads this, builder, builder.str
    {
      builder.Valid()
    }

    ghost function Text(): string
      requires Valid()
      reads this, builder, builder.str
    {
      builder.Contents()
    }

    constructor (number: real -> string)
      ensures Valid() && Text() == [] && fresh(builder) && fresh(builder.str) && this.number == number
    {
      this.number := number;
      builder := new StringBuilder();
    }

    /** Appends a string. The ghost arguments split the text into what was there before a printing
        method started and what that method has printed so far. */
    method Emit(s: string, ghost base: string, ghost printed: string) returns (ghost now: string)
      requires Valid() && Text() == base + printed
      modifies builder, builder.str
      ensures Valid() && (builder.str == old(builder.str) || fresh(builder.str))
      ensures now == printed + s && Text() == base + now
    {
      builder.AddStr(s);
      now := printed + s;
      assert (base + printed) + s == base + now;
    }

    method EmitChar(c: char, ghost base: string, ghost printed: string) returns (ghost now: string)
      requires Valid() && Text() == base + printed
      modifies builder, builder.str
      ensures Valid() && (builder.str == old(builder.str) || fresh(builder.str))
      ensures now == printed + [c] && Text() == base + now
    {
      builder.AddChar(c);
      now := printed + [c];
      assert (base + printed) + [c] == base + now;
    }

    method EmitPrefix(prefix: Option<string>, ghost base: string, ghost printed: string) returns (ghost now: string)
      requires Valid() && Text() == base + printed
      modifies builder, builder.str
      ensures Valid() && (builder.str == old(builder.str) || fresh(builder.str))
      ensures now == printed + Prefix(prefix) && Text() == base + now
    {
      now := printed;
      if prefix.Some? {
        now := Emit(prefix.value, base, printed);
      } else {
        assert printed + "" == printed;
      }
    }

    method LoadHelp(prefix: Option<string>, name: string, help: Option<string>)
      requires Valid()
      modifies builder, builder.str
      ensures Valid() && (builder.str == old(builder.str) || fresh(builder.str))
      ensures Text() == old(Text()) + HelpText(prefix, name, help)
    {
      ghost var base, t := Text(), "";
      assert base + "" == base;
      if help.None? {
        return;
      }
      assert help == Some(help.value);
      hide Formatter.Text, StringBuilder.Contents, StringBuilder.Valid, HelpText;
      t := Emit("# HELP ", base, t);
      t := EmitPrefix(prefix, base, t);
      t := Emit(name, base, t);
      t := EmitChar(' ', base, t);
      t := Emit(help.value, base, t);
      t := EmitChar('\n', base, t);
      HelpTextParts(prefix, name, help.value);
    }

    method LoadType(prefix: Option<string>, name: string, t: MetricType)
      requires Valid()
      modifies builder, builder.str
      ensures Valid() && (builder.str == old(builder.str) || fresh(builder.str))
      ensures Text() == old(Text()) + TypeText(prefix, name, t)
    {
      ghost var base, p := Text(), "";
      assert base + "" == base;
      hide Formatter.Text, StringBuilder.Contents, StringBuilder.Valid, TypeName, TypeText;
      p := Emit("# TYPE ", base, p);
      p := EmitPrefix(prefix, base, p);
      p := Emit(name, base, p);
      p := EmitChar(' ', base, p);
      p := Emit(TypeName(t), base, p);
      p := EmitChar('\n', base, p);
      TypeTextParts(prefix, name, t);
    }

    /** Prints a sample identity. The loop ends every label with a comma and the last comma is
        truncated, whatever text the builder already held. */
    method LoadLValue(name: string, suffix: Option<string>, keys: seq<string>, values: seq<string>)
      requires Valid() && |keys| <= |values|
      modifies builder, builder.str
      ensures Valid() && (builder.str == old(builder.str) || fresh(builder.str))
      ensures Text() == old(Text()) + LValue(name, suffix, keys, values)
    {
      hide Formatter.Text, StringBuilder.Contents, StringBuilder.Valid, FullName, LValue, Labels, PrintLabels,
           PrintTerminated;
      ghost var base, t := Text(), "";
      assert base + "" == base;
      LValueParts(name, suffix, keys, values);
      t := Emit(name, base, t);
      if suffix.Some? {
        t := EmitChar('_', base, t);
        t := Emit(suffix.value, base, t);
      }
      assert t == FullName(name, suffix);
      if |keys| == 0 {
        return;
      }
      t := LoadLabelBlock(keys, values, base, t);
    }

    /** The labels in braces. */
    method LoadLabelBlock(keys: seq<string>, values: seq<string>, ghost base: string, ghost printed: string)
      returns (ghost now: string)
      requires Valid() && 0 < |keys| <= |values| && Text() == base + printed
      modifies builder, builder.str
      ensures Valid() && (builder.str == old(builder.str) || fresh(builder.str))
      ensures now == printed + "{" + PrintLabels(Labels(keys, values)) + ['}'] && Text() == base + now
    {
      hide Formatter.Text, StringBuilder.Contents, StringBuilder.Valid, PrintLabels, PrintTerminated;
      ghost var ls := Labels(keys, values);
      now := EmitChar('{', base, printed);
      now := LoadLabels(keys, values, base, now);
      TerminatedIsSeparated(ls);
      CutComma(base, now, printed + "{" + PrintLabels(ls));
      now := EmitChar('}', base, printed + "{" + PrintLabels(ls));
    }

    method CutComma(ghost base: string, ghost printed: string, ghost kept: string)
      requires Valid() && Text() == base + printed && printed == kept + ","
      modifies builder, builder.str
      ensures Valid() && builder.str == old(builder.str)
      ensures Text() == base + kept
    {
      var n := builder.Len();
      builder.Truncate(n - 1);
      assert (base + printed)[..n - 1] == base + kept;
    }

    /** The loop of LoadLValue. */
    method LoadLabels(keys: seq<string>, values: seq<string>, ghost base: string, ghost printed: string)
      returns (ghost now: string)
      requires Valid() && |keys| <= |values| && Text() == base + printed
      modifies builder, builder.str
      ensures Valid() && (builder.str == old(builder.str) || fresh(builder.str))
      ensures now == printed + PrintTerminated(Labels(keys, values)) && Text() == base + now
    {
      now := printed;
      ghost var ls := Labels(keys, values);
      for i := 0 to |keys|
        invariant Valid() && (builder.str == old(builder.str) || fresh(builder.str))
        invariant now == printed + PrintTerminated(ls[..i]) && Text() == base + now
      {
        hide Formatter.Text, StringBuilder.Contents, StringBuilder.Valid;
        now := Emit(keys[i], base, now);
        now := Emit("=\"", base, now);
        now := Emit(values[i], base, now);
        now := Emit("\",", base, now);
        TerminatedStep(printed, ls, i);
      }
      assert ls[..|keys|] == ls;
    }

    method LoadSample(lValue: string, value: real, prefix: Option<string>)
      requires Valid()
      modifies builder, builder.str
      ensures Valid() && (builder.str == old(builder.str) || fresh(builder.str))
      ensures Text() == old(Text()) + SampleText(number, prefix, lValue, value)
    {
      ghost var base, t := Text(), "";
      assert base + "" == base;
      hide Formatter.Text, StringBuilder.Contents, StringBuilder.Valid;
      t := EmitPrefix(prefix, base, t);
      t := Emit(lValue, base, t);
      var buffer := " " + number(value);
      t := Emit(buffer, base, t);
      t := EmitChar('\n', base, t);
      SampleTextParts(number, prefix, lValue, value);
    }

    method Clear()
      modifies builder
      ensures Valid() && Text() == [] && fresh(builder.str)
    {
      builder.Clear();
    }

    method Dump() returns (data: string)
      requires Valid()
      modifies builder
      ensures Valid() && Text() == [] && fresh(builder.str)
      ensures data == old(Text())
    {
      data := builder.Dump();
      builder.Clear();
    }
  }
}
