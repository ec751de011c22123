/**
  Reading the text of a scrape back, line by line. The reader is written from the exposition format
  and shares nothing with the printer (lib/prom/src/prom_metric_formatter.c) but the characters.
  */
module TextReader {
  import opened Prelude
  import opened LValues
  import opened Formatters

  datatype TextLine =
    | HelpLine(name: string, text: string)
    | TypeLine(name: string, word: string)
    | SampleLine(id: string, number: string)
    | BlankLine

  function LastIndexOf(s: string, c: char): (i: nat)
    ensures i <= |s|
    ensures i < |s| ==> s[i] == c && c !in s[i + 1..]
    ensures i == |s| ==> c !in s
  {
    if s == [] then 0
    else if s[|s| - 1] == c then |s| - 1
    else
      var i := LastIndexOf(s[..|s| - 1], c);
      assert s == s[..|s| - 1] + [s[|s| - 1]];
      if i == |s| - 1 then |s|
      else
        assert s[i + 1..] == s[..|s| - 1][i + 1..] + [s[|s| - 1]];
        i
  }

  /** A comment line names a metric and says something about it, up to the end of the line. */
  function ReadComment(rest: string): Option<(string, string)> {
    var i := IndexOf(rest, ' ');
    if i == |rest| then None else Some((rest[..i], rest[i + 1..]))
  }

  /** A sample's number is behind the last space of its line: label values may have spaces. */
  function ReadLine(l: string): Option<TextLine> {
    if l == "" then Some(BlankLine)
    else if "# HELP " <= l then
      var c := ReadComment(l[7..]);
      if c.None? then None else Some(HelpLine(c.value.0, c.value.1))
    else if "# TYPE " <= l then
      var c := ReadComment(l[7..]);
      if c.None? then None else Some(TypeLine(c.value.0, c.value.1))
    else if l[0] == '#' then None
    else
      var i := LastIndexOf(l, ' ');
      if i == |l| then None else Some(SampleLine(l[..i], l[i + 1..]))
  }

  /** All lines; the last one must be terminated. */
  function ReadText(s: string): seq<Option<TextLine>>
    decreases |s|
  {
    if s == "" then []
    else
      var i := IndexOf(s, '\n');
      if i == |s| then [None] else [ReadLine(s[..i])] + ReadText(s[i + 1..])
  }

  lemma ReadFirst(l: string, rest: string)
    requires '\n' !in l
    ensures ReadText(l + ['\n'] + rest) == [ReadLine(l)] + ReadText(rest)
  {
    hide ReadLine;
    var s := l + ['\n'] + rest;
    IndexOfAt(l, '\n', rest);
    assert s[..|l|] == l && s[|l| + 1..] == rest && s != "";
  }

  lemma ReadOne(l: string)
    requires '\n' !in l
    ensures ReadText(l + "\n") == [ReadLine(l)]
  {
    hide ReadLine;
    ReadFirst(l, "");
    assert l + ['\n'] + "" == l + "\n";
  }

  /** Behind whole lines, reading goes on as from the start. */
  lemma {:induction false} ReadJoin(a: string, b: string)
    requires a == "" || a[|a| - 1] == '\n'
    ensures ReadText(a + b) == ReadText(a) + ReadText(b)
    decreases |a|
  {
    hide ReadLine, ReadText;
    if a == "" {
      ReadNothing();
      assert a + b == b && [] + ReadText(b) == ReadText(b);
    } else {
      var i := IndexOf(a, '\n');
      var l, rest := a[..i], a[i + 1..];
      FirstLine(a, i);
      ReadFirst(l, rest);
      ReadFirst(l, rest + b);
      assert a == l + ['\n'] + rest && a + b == l + ['\n'] + (rest + b);
      ReadJoin(rest, b);
      assert [ReadLine(l)] + (ReadText(rest) + ReadText(b)) == [ReadLine(l)] + ReadText(rest) + ReadText(b);
    }
  }

  lemma ReadNothing()
    ensures ReadText("") == []
  {
  }

  lemma FirstLine(a: string, i: nat)
    requires a != "" && a[|a| - 1] == '\n' && i == IndexOf(a, '\n')
    ensures i < |a| && '\n' !in a[..i]
    ensures a[i + 1..] == "" || a[i + 1..][|a[i + 1..]| - 1] == '\n'
  {
    assert a[..|a|] == a;
  }

  // ----- The lines that the printer makes -----

  function Lead(prefix: Option<string>): string {
    if prefix.Some? then prefix.value else ""
  }

  /** What a name must be: not empty, one word, and not the beginning of a comment. */
  ghost predicate Word(s: string) {
    s != "" && s[0] != '#' && ' ' !in s && '\n' !in s
  }

  lemma ReadsComment(name: string, text: string)
    requires ' ' !in name
    ensures ReadComment(name + [' '] + text) == Some((name, text))
  {
    var rest := name + [' '] + text;
    IndexOfAt(name, ' ', text);
    assert rest[..|name|] == name && rest[|name| + 1..] == text;
  }

  lemma ReadsHelp(name: string, text: string)
    requires ' ' !in name
    ensures ReadLine("# HELP " + (name + [' '] + text)) == Some(HelpLine(name, text))
  {
    var l := "# HELP " + (name + [' '] + text);
    ReadsComment(name, text);
    hide ReadComment;
    assert "# HELP " <= l && l[7..] == name + [' '] + text;
  }

  lemma ReadsType(name: string, word: string)
    requires ' ' !in name
    ensures ReadLine("# TYPE " + (name + [' '] + word)) == Some(TypeLine(name, word))
  {
    var l := "# TYPE " + (name + [' '] + word);
    ReadsComment(name, word);
    hide ReadComment;
    assert "# TYPE " <= l && l[7..] == name + [' '] + word;
    assert l[2] == 'T' && "# HELP "[2] == 'H';
  }

  /** The first line that is read has no newline. */
  lemma FirstHasNoNewline(s: string)
    requires s != "" && ReadText(s)[0].Some?
    ensures '\n' !in LineText(ReadText(s)[0].value)
  {
    var i := IndexOf(s, '\n');
    if i < |s| {
      LineHasNoNewline(s[..i]);
    }
  }

  lemma LineHasNoNewline(l: string)
    requires '\n' !in l && ReadLine(l).Some?
    ensures '\n' !in LineText(ReadLine(l).value)
  {
    hide LastIndexOf, IndexOf;
  }

  /** What a line says. */
  function LineText(l: TextLine): string {
    match l
    case HelpLine(_, text) => text
    case TypeLine(_, word) => word
    case SampleLine(id, _) => id
    case BlankLine => ""
  }

  /** The HELP line, exactly if the help text, which is printed as it is, has no newline; and nothing
      without a help text. */
  lemma HelpReadsBack(prefix: Option<string>, name: string, help: Option<string>)
    requires Word(Lead(prefix) + name)
    ensures ReadText(HelpText(prefix, name, help))
            == (if help.None? then [] else [Some(HelpLine(Lead(prefix) + name, help.value))])
            <==> (help.Some? ==> '\n' !in help.value)
  {
    hide ReadText, ReadLine;
    if help.None? {
      ReadNothing();
    } else if '\n' in help.value {
      HelpLineText(prefix, name, help.value);
      assert help == Some(help.value);
      assert HelpText(prefix, name, help) != "";
      if ReadText(HelpText(prefix, name, help)) == [Some(HelpLine(Lead(prefix) + name, help.value))] {
        FirstHasNoNewline(HelpText(prefix, name, help));
      }
    } else {
      assert help == Some(help.value);
      var rest := Lead(prefix) + name + [' '] + help.value;
      HelpLineText(prefix, name, help.value);
      ReadsHelp(Lead(prefix) + name, help.value);
      ReadOne("# HELP " + rest);
    }
  }

  lemma HelpLineText(prefix: Option<string>, name: string, help: string)
    ensures HelpText(prefix, name, Some(help)) == "# HELP " + (Lead(prefix) + name + [' '] + help) + "\n"
  {
    HelpTextParts(prefix, name, help);
    assert "" + "# HELP " == "# HELP ";
  }

  lemma TypeLineText(prefix: Option<string>, name: string, t: MetricType)
    ensures TypeText(prefix, name, t) == "# TYPE " + (Lead(prefix) + name + [' '] + TypeName(t)) + "\n"
  {
    hide TypeName;
    TypeTextParts(prefix, name, t);
    assert "" + "# TYPE " == "# TYPE ";
  }

  lemma TypeWords()
    ensures TypeName(Counter) == "counter" && TypeName(Gauge) == "gauge" && TypeName(Histogram) == "histogram"
    ensures TypeName(Summary) == "summary" && TypeName(Untyped) == "untyped"
    ensures forall t: MetricType :: '\n' !in TypeName(t)
  {
  }

  /** The TYPE line, with the word that the format has for the type. */
  lemma TypeReadsBack(prefix: Option<string>, name: string, t: MetricType)
    requires Word(Lead(prefix) + name)
    ensures ReadText(TypeText(prefix, name, t))
            == [Some(TypeLine(Lead(prefix) + name,
                              match t
                              case Counter => "counter"
                              case Gauge => "gauge"
                              case Histogram => "histogram"
                              case Summary => "summary"
                              case Untyped => "untyped"))]
  {
    hide TypeName, TypeText, ReadText, ReadLine;
    TypeWords();
    TypeLineText(prefix, name, t);
    ReadsType(Lead(prefix) + name, TypeName(t));
    ReadOne("# TYPE " + (Lead(prefix) + name + [' '] + TypeName(t)));
  }

  lemma {:induction false} LastIndexOfAt(a: string, c: char, b: string)
    requires c !in b
    ensures LastIndexOf(a + [c] + b, c) == |a|
  {
    var s := a + [c] + b;
    if b != [] {
      assert s[..|s| - 1] == a + [c] + b[..|b| - 1];
      LastIndexOfAt(a, c, b[..|b| - 1]);
    }
  }

  /** A sample line, whatever spaces its label values have, exactly if none has a newline. */
  lemma SampleReadsBack(number: real -> string, prefix: Option<string>, id: string, value: real)
    requires id != "" && (Lead(prefix) + id)[0] != '#' && ' ' !in number(value) && '\n' !in number(value)
    ensures ReadText(SampleText(number, prefix, id, value)) == [Some(SampleLine(Lead(prefix) + id, number(value)))]
            <==> '\n' !in Lead(prefix) + id
  {
    hide ReadText, ReadLine;
    var head := Lead(prefix) + id;
    SampleLineText(number, prefix, id, value);
    if '\n' in head {
      if ReadText(SampleText(number, prefix, id, value)) == [Some(SampleLine(head, number(value)))] {
        FirstHasNoNewline(SampleText(number, prefix, id, value));
      }
    } else {
      ReadsSample(head, number(value));
      ReadOne(head + [' '] + number(value));
    }
  }

  lemma SampleLineText(number: real -> string, prefix: Option<string>, id: string, value: real)
    ensures SampleText(number, prefix, id, value) == Lead(prefix) + id + [' '] + number(value) + "\n"
  {
    SampleTextParts(number, prefix, id, value);
    assert Lead(prefix) + id + (" " + number(value)) == Lead(prefix) + id + [' '] + number(value);
  }

  lemma ReadsSample(id: string, n: string)
    requires id != "" && id[0] != '#' && ' ' !in n
    ensures ReadLine(id + [' '] + n) == Some(SampleLine(id, n))
  {
    var l := id + [' '] + n;
    LastIndexOfAt(id, ' ', n);
    hide LastIndexOf;
    assert l[..|id|] == id && l[|id| + 1..] == n && l[0] == id[0];
    assert "# HELP "[0] == '#' && "# TYPE "[0] == '#';
  }
}
