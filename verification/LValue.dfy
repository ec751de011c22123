/**
  The printed identity of a sample, `name_suffix{key="value",...}`, which is also the key under
  which the sample is stored (lib/prom/src/prom_metric_formatter.c, lines 112 to 147).
  */
module LValues {
  import opened Prelude

  datatype Label = Label(key: string, value: string)

  datatype Identity = Identity(name: string, labels: seq<Label>)

  function FullName(name: string, suffix: Option<string>): string {
    match suffix
    case None => name
    case Some(s) => name + "_" + s
  }

  function PrintLabel(l: Label): string {
    l.key + "=\"" + l.value + "\""
  }

  /** The labels, separated by commas. */
  function PrintLabels(ls: seq<Label>): string
    requires ls != []
  {
    if |ls| == 1 then PrintLabel(ls[0]) else PrintLabel(ls[0]) + "," + PrintLabels(ls[1..])
  }

  /** Without labels there are no braces either. */
  function Print(id: Identity): string {
    if id.labels == [] then id.name else id.name + "{" + PrintLabels(id.labels) + "}"
  }

  function Labels(keys: seq<string>, values: seq<string>): (ls: seq<Label>)
    requires |keys| <= |values|
    ensures |ls| == |keys|
    ensures forall i :: 0 <= i < |ls| ==> ls[i] == Label(keys[i], values[i])
  {
    seq(|keys|, i requires 0 <= i < |keys| => Label(keys[i], values[i]))
  }

  /** What pmf_load_l_value prints. */
  function LValue(name: string, suffix: Option<string>, keys: seq<string>, values: seq<string>): string
    requires |keys| <= |values|
  {
    Print(Identity(FullName(name, suffix), Labels(keys, values)))
  }

  /** The labels as the printing loop leaves them: each one followed by a comma. */
  function PrintTerminated(ls: seq<Label>): string {
    if ls == [] then "" else PrintTerminated(ls[..|ls| - 1]) + PrintLabel(ls[|ls| - 1]) + ","
  }

  /** Cutting one character off the loop's output leaves the separated labels. */
  lemma {:induction false} TerminatedIsSeparated(ls: seq<Label>)
    requires ls != []
    ensures PrintTerminated(ls) == PrintLabels(ls) + ","
  {
    var front, last := ls[..|ls| - 1], ls[|ls| - 1];
    if front == [] {
      assert PrintTerminated(ls) == "" + PrintLabel(last) + ",";
    } else {
      TerminatedIsSeparated(front);
      PrintLabelsAppend(front, last);
      assert front + [last] == ls;
    }
  }

  lemma {:induction false} PrintLabelsAppend(ls: seq<Label>, l: Label)
    requires ls != []
    ensures PrintLabels(ls + [l]) == PrintLabels(ls) + "," + PrintLabel(l)
  {
    if |ls| == 1 {
      assert (ls + [l])[1..] == [l];
    } else {
      assert (ls + [l])[1..] == ls[1..] + [l];
      PrintLabelsAppend(ls[1..], l);
    }
  }

  /** The identity spelled out: the name, for any suffix behind an underscore; nothing more without
      labels, and the first label in braces. */
  lemma FirstLabels(name: string, suffix: string, k: string, v: string)
    ensures LValue(name, None, [], []) == name
    ensures LValue(name, Some(suffix), [], []) == name + "_" + suffix
    ensures LValue(name, None, [k], [v]) == name + "{" + k + "=\"" + v + "\"}"
    ensures LValue(name, Some(suffix), [k], [v]) == name + "_" + suffix + "{" + k + "=\"" + v + "\"}"
  {
    var full := FullName(name, Some(suffix));
    OneLabel(name, k, v);
    OneLabel(full, k, v);
    assert Labels([k], [v]) == [Label(k, v)];
  }

  lemma OneLabel(full: string, k: string, v: string)
    ensures Print(Identity(full, [Label(k, v)])) == full + "{" + k + "=\"" + v + "\"}"
  {
    assert PrintLabels([Label(k, v)]) == k + "=\"" + v + "\"";
    Braced(full, k + "=\"" + v + "\"");
  }

  lemma Braced(full: string, labels: string)
    ensures full + "{" + labels + "}" == full + "{" + (labels + "}")
  {
  }

  /** One more label goes before the closing brace, behind a comma. */
  lemma NextLabel(name: string, suffix: Option<string>, keys: seq<string>, values: seq<string>, k: string, v: string)
    requires |keys| == |values| > 0
    ensures var front := LValue(name, suffix, keys, values);
            && |front| > 0 && front[|front| - 1] == '}'
            && LValue(name, suffix, keys + [k], values + [v]) == front[..|front| - 1] + "," + k + "=\"" + v + "\"}"
  {
    var ls, l := Labels(keys, values), Label(k, v);
    assert Labels(keys + [k], values + [v]) == ls + [l];
    PrintLabelsAppend(ls, l);
    assert ls != [];
    Appended(FullName(name, suffix) + "{", PrintLabels(ls), k, v);
  }

  lemma Appended(open: string, labels: string, k: string, v: string)
    ensures var front := open + labels + "}";
            && front[|front| - 1] == '}' && front[..|front| - 1] == open + labels
            && open + (labels + "," + PrintLabel(Label(k, v))) + "}" == open + labels + "," + k + "=\"" + v + "\"}"
  {
    assert PrintLabel(Label(k, v)) + "}" == k + "=\"" + v + "\"}";
  }

  // ----- Reading an identity back -----

  function IndexOf(s: string, c: char): (i: nat)
    ensures i <= |s|
    ensures i < |s| ==> s[i] == c
    ensures c !in s[..i]
  {
    if s == [] || s[0] == c then 0
    else
      var i := IndexOf(s[1..], c);
      assert s[..i + 1] == [s[0]] + s[1..][..i];
      i + 1
  }

  /** The label at the start of `s`, and what follows its closing quote. */
  function SplitLabel(s: string): (r: Option<(Label, string)>)
    ensures r.Some? ==> |r.value.1| < |s|
  {
    var e := IndexOf(s, '=');
    if e + 1 >= |s| || s[e + 1] != '"' then None
    else
      var rest := s[e + 2..];
      var q := IndexOf(rest, '"');
      if q == |rest| then None else Some((Label(s[..e], rest[..q]), rest[q + 1..]))
  }

  function ParseLabels(s: string): Option<seq<Label>>
    decreases |s|
  {
    match SplitLabel(s)
    case None => None
    case Some((first, tail)) =>
      if tail == "}" then Some([first])
      else if tail == [] || tail[0] != ',' then None
      else
        match ParseLabels(tail[1..])
        case None => None
        case Some(more) => Some([first] + more)
  }

  function Parse(s: string): Option<Identity> {
    var i := IndexOf(s, '{');
    if i == |s| then Some(Identity(s, []))
    else
      var ls := ParseLabels(s[i + 1..]);
      if ls.None? then None else Some(Identity(s[..i], ls.value))
  }

  ghost predicate CleanLabel(l: Label) {
    '=' !in l.key && '"' !in l.value
  }

  /** Names without `{`, label keys without `=`, label values without quotes. */
  ghost predicate Clean(id: Identity) {
    '{' !in id.name && forall i :: 0 <= i < |id.labels| ==> CleanLabel(id.labels[i])
  }

  lemma {:induction false} IndexOfAt(a: string, c: char, b: string)
    requires c !in a
    ensures IndexOf(a + [c] + b, c) == |a|
  {
    if a == [] {
      assert ([] + [c] + b)[0] == c;
    } else {
      assert (a + [c] + b)[1..] == a[1..] + [c] + b;
      IndexOfAt(a[1..], c, b);
    }
  }

  /** One label in front of `tail` is read back as that label, leaving `tail`. */
  lemma SplitPrinted(l: Label, tail: string)
    requires CleanLabel(l)
    ensures SplitLabel(PrintLabel(l) + tail) == Some((l, tail))
  {
    hide CleanLabel;
    var s, rest := PrintLabel(l) + tail, l.value + ['"'] + tail;
    LabelParts(l, tail);
    CleanParts(l);
    IndexOfAt(l.key, '=', ['"'] + rest);
    IndexOfAt(l.value, '"', tail);
  }

  lemma CleanParts(l: Label)
    ensures CleanLabel(l) <==> '=' !in l.key && '"' !in l.value
  {
  }

  lemma LabelParts(l: Label, tail: string)
    ensures var s, rest := PrintLabel(l) + tail, l.value + ['"'] + tail;
            && s == l.key + ['='] + (['"'] + rest)
            && s[..|l.key|] == l.key && s[|l.key| + 1] == '"' && s[|l.key| + 2..] == rest
            && rest[..|l.value|] == l.value && rest[|l.value| + 1..] == tail
  {
    assert PrintLabel(l) == l.key + ['='] + ['"'] + l.value + ['"'];
  }

  /** A text around its first `=` and the two quotes of the value. */
  lemma AroundLabel(s: string, e: nat, q: nat)
    requires e + 2 + q < |s| && s[e] == '=' && s[e + 1] == '"' && s[e + 2 + q] == '"'
    ensures var rest := s[e + 2..];
            && rest[..q] == s[e + 2..e + 2 + q] && rest[q + 1..] == s[e + 3 + q..]
            && s == s[..e] + "=\"" + rest[..q] + "\"" + rest[q + 1..]
  {
  }

  lemma SplitPrints(s: string)
    requires SplitLabel(s).Some?
    ensures var (first, tail) := SplitLabel(s).value; CleanLabel(first) && s == PrintLabel(first) + tail
  {
    var e := IndexOf(s, '=');
    var q := IndexOf(s[e + 2..], '"');
    hide IndexOf;
    AroundLabel(s, e, q);
  }

  lemma {:induction false} ParseLabelsPrinted(ls: seq<Label>)
    requires ls != [] && forall i :: 0 <= i < |ls| ==> CleanLabel(ls[i])
    ensures ParseLabels(PrintLabels(ls) + "}") == Some(ls)
  {
    hide SplitLabel, PrintLabel;
    if |ls| == 1 {
      SplitPrinted(ls[0], "}");
      assert [ls[0]] == ls;
    } else {
      var more := PrintLabels(ls[1..]) + "}";
      assert PrintLabels(ls) + "}" == PrintLabel(ls[0]) + ("," + more);
      SplitPrinted(ls[0], "," + more);
      assert ("," + more)[1..] == more;
      ParseLabelsPrinted(ls[1..]);
      assert [ls[0]] + ls[1..] == ls;
    }
  }

  /** Whatever parses is clean and is printed the same way again. */
  lemma {:induction false} ParsedLabelsPrint(s: string)
    requires ParseLabels(s).Some?
    ensures var ls := ParseLabels(s).value;
            ls != [] && (forall i :: 0 <= i < |ls| ==> CleanLabel(ls[i])) && PrintLabels(ls) + "}" == s
    decreases |s|
  {
    hide SplitLabel, PrintLabel;
    SplitPrints(s);
    var (first, tail) := SplitLabel(s).value;
    if tail != "}" {
      ParsedLabelsPrint(tail[1..]);
      var more := ParseLabels(tail[1..]).value;
      assert ParseLabels(s).value == [first] + more;
      assert ([first] + more)[1..] == more;
      assert tail == "," + (PrintLabels(more) + "}");
    }
  }

  lemma BeforeFirst(s: string, c: char)
    ensures IndexOf(s, c) == |s| <==> c !in s
  {
    assert s[..|s|] == s;
  }

  /** A printed identity reads back as itself exactly when it is clean. */
  lemma RoundTrip(id: Identity)
    ensures Parse(Print(id)) == Some(id) <==> Clean(id)
  {
    if Clean(id) {
      PrintedParses(id);
    } else if Parse(Print(id)) == Some(id) {
      ParsedPrints(Print(id));
    }
  }

  lemma PrintedParses(id: Identity)
    requires Clean(id)
    ensures Parse(Print(id)) == Some(id)
  {
    hide ParseLabels, PrintLabels;
    if id.labels == [] {
      BeforeFirst(id.name, '{');
    } else {
      var labels := PrintLabels(id.labels) + "}";
      assert Print(id) == id.name + ['{'] + labels;
      IndexOfAt(id.name, '{', labels);
      assert Print(id)[..|id.name|] == id.name && Print(id)[|id.name| + 1..] == labels;
      ParseLabelsPrinted(id.labels);
    }
  }

  lemma ParsedPrints(s: string)
    requires Parse(s).Some?
    ensures Clean(Parse(s).value) && Print(Parse(s).value) == s
  {
    hide ParseLabels, PrintLabels;
    var i := IndexOf(s, '{');
    if i == |s| {
      BeforeFirst(s, '{');
    } else {
      ParsedLabelsPrint(s[i + 1..]);
      assert s == s[..i] + "{" + s[i + 1..];
    }
  }

  /** Clean identities are told apart by their text. */
  lemma PrintInjective(a: Identity, b: Identity)
    requires Clean(a) && Clean(b) && Print(a) == Print(b)
    ensures a == b
  {
    RoundTrip(a);
    RoundTrip(b);
  }

  ghost predicate CleanKeys(keys: seq<string>) {
    forall i :: 0 <= i < |keys| ==> '=' !in keys[i]
  }

  ghost predicate QuoteFree(values: seq<string>) {
    forall i :: 0 <= i < |values| ==> '"' !in values[i]
  }

  /** Every label value but the last is free of quotes; that is no condition on a metric with one label. */
  ghost predicate InnerQuoteFree(values: seq<string>) {
    forall i :: 0 <= i < |values| - 1 ==> '"' !in values[i]
  }

  lemma SameMiddle(a: string, k: string, l: string, b: string)
    requires a + k + b == a + l + b
    ensures k == l
  {
    assert |k| == |l|;
    assert (a + k + b)[|a|..|a| + |k|] == k;
    assert (a + l + b)[|a|..|a| + |l|] == l;
  }

  /** Up to the first quote, two texts that go on differently are still the same. */
  lemma SameUpToQuote(a: string, k: string, s: string, l: string, t: string)
    requires a + k + ['"'] + s == a + l + ['"'] + t && '"' !in k && '"' !in l
    ensures k == l && s == t
  {
    var x, y := k + ['"'] + s, l + ['"'] + t;
    assert a + x == a + k + ['"'] + s && a + y == a + l + ['"'] + t;
    assert (a + x)[|a|..] == x && (a + y)[|a|..] == y;
    IndexOfAt(k, '"', s);
    IndexOfAt(l, '"', t);
    assert x[..|k|] == k && y[..|l|] == l && x[|k| + 1..] == s && y[|l| + 1..] == t;
  }

  lemma PrintFirst(keys: seq<string>, v: seq<string>)
    requires |keys| == |v| > 0
    ensures |keys| == 1 ==> PrintLabels(Labels(keys, v)) == keys[0] + "=\"" + v[0] + "\""
    ensures |keys| > 1 ==>
              PrintLabels(Labels(keys, v))
              == keys[0] + "=\"" + v[0] + ['"'] + ("," + PrintLabels(Labels(keys[1..], v[1..])))
  {
    var ls := Labels(keys, v);
    assert ls[1..] == Labels(keys[1..], v[1..]);
    assert PrintLabel(ls[0]) == keys[0] + "=\"" + v[0] + "\"";
    if |keys| > 1 {
      Bracket(keys[0] + "=\"" + v[0], PrintLabels(ls[1..]));
    }
  }

  lemma Bracket(front: string, rest: string)
    ensures front + "\"" + "," + rest == front + ['"'] + ("," + rest)
  {
  }

  /** The printed labels determine the values, if only the last may have quotes. */
  lemma {:induction false} LabelsInjective(keys: seq<string>, v: seq<string>, w: seq<string>)
    requires |keys| == |v| == |w| > 0 && InnerQuoteFree(v) && InnerQuoteFree(w)
    requires PrintLabels(Labels(keys, v)) == PrintLabels(Labels(keys, w))
    ensures v == w
  {
    hide PrintLabels, Labels;
    PrintFirst(keys, v);
    PrintFirst(keys, w);
    var front := keys[0] + "=\"";
    if |keys| == 1 {
      SameMiddle(front, v[0], w[0], "\"");
    } else {
      var s, t := PrintLabels(Labels(keys[1..], v[1..])), PrintLabels(Labels(keys[1..], w[1..]));
      SameUpToQuote(front, v[0], "," + s, w[0], "," + t);
      assert ("," + s)[1..] == s && ("," + t)[1..] == t;
      LabelsInjective(keys[1..], v[1..], w[1..]);
      assert v == [v[0]] + v[1..] && w == [w[0]] + w[1..];
    }
  }

  /** For one metric, different label values print differently, if only the last may have quotes. */
  lemma LValueInjective(name: string, suffix: Option<string>, keys: seq<string>, v: seq<string>, w: seq<string>)
    requires |v| == |w| == |keys| && InnerQuoteFree(v) && InnerQuoteFree(w)
    requires LValue(name, suffix, keys, v) == LValue(name, suffix, keys, w)
    ensures v == w
  {
    if keys != [] {
      var a, b := Labels(keys, v), Labels(keys, w);
      assert a != [] && b != [];
      hide PrintLabels, Labels;
      SameMiddle(FullName(name, suffix) + "{", PrintLabels(a), PrintLabels(b), "}");
      LabelsInjective(keys, v, w);
    }
  }

  /** What ends one label value and begins the next. */
  function Separator(keys: seq<string>): string
    requires |keys| >= 2
  {
    "\"," + keys[1] + "=\""
  }

  /** Any metric with two labels or more has different label values that print the same text. */
  lemma QuotesCollide(name: string, suffix: Option<string>, keys: seq<string>, rest: seq<string>)
    requires |keys| == |rest| + 2
    ensures var v, w := [Separator(keys), ""] + rest, ["", Separator(keys)] + rest;
            v != w && LValue(name, suffix, keys, v) == LValue(name, suffix, keys, w)
  {
    var sep := Separator(keys);
    var v, w := [sep, ""] + rest, ["", sep] + rest;
    assert v[0] != w[0];
    TwoLabels(keys, sep, "", rest);
    TwoLabels(keys, "", sep, rest);
    hide PrintLabels, Labels;
    assert sep + sep + "" == "" + sep + sep;
  }

  /** What follows the second label value. */
  function Rest(keys: seq<string>, rest: seq<string>): string
    requires |keys| == |rest| + 2
  {
    "\"" + if rest == [] then "" else "," + PrintLabels(Labels(keys[2..], rest))
  }

  lemma TwoLabels(keys: seq<string>, x: string, y: string, rest: seq<string>)
    requires |keys| == |rest| + 2
    ensures PrintLabels(Labels(keys, [x, y] + rest))
            == keys[0] + "=\"" + (x + Separator(keys) + y) + Rest(keys, rest)
  {
    hide PrintLabels, Labels;
    var v := [x, y] + rest;
    PrintFirst(keys, v);
    assert v[1..] == [y] + rest && keys[1..][1..] == keys[2..] && ([y] + rest)[1..] == rest;
    PrintFirst(keys[1..], v[1..]);
  }

  /** Labels tell all values apart, quotes or not, exactly in metrics with at most one label. */
  lemma OneLabelExactly(name: string, suffix: Option<string>, keys: seq<string>)
    ensures (forall v: seq<string>, w: seq<string> ::
               |v| == |w| == |keys| && LValue(name, suffix, keys, v) == LValue(name, suffix, keys, w) ==> v == w)
            <==> |keys| <= 1
  {
    hide LValue;
    if |keys| <= 1 {
      forall v: seq<string>, w: seq<string>
        | |v| == |w| == |keys| && LValue(name, suffix, keys, v) == LValue(name, suffix, keys, w)
        ensures v == w
      {
        LValueInjective(name, suffix, keys, v, w);
      }
    } else {
      QuotesCollide(name, suffix, keys, keys[2..]);
    }
  }
}
