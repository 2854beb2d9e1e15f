/**
 The Prometheus text printer (internal/observability/prometheus.go) against a reader of the
 text exposition format 0.0.4: every printed line reads back to its name, labels and value.
 */
module Exposition {
  import opened Wrappers
  import opened Ordering
  import opened Metrics
  import opened MetricsLaws

  // ---------- escaping ----------

  /** `strings.ReplaceAll` for a one-character pattern. */
  function ReplaceAll(s: string, old': char, new': string): string {
    if s == "" then "" else Replacement(s[0], old', new') + ReplaceAll(s[1..], old', new')
  }

  /** Three replacements, one after the other. */
  function EscapeLabelValue(value: string): string {
    ReplaceAll(ReplaceAll(ReplaceAll(value, '\\', "\\\\"), '\n', "\\n"), '"', "\\\"")
  }

  function EscapeChar(c: char): string {
    if c == '\\' then "\\\\" else if c == '\n' then "\\n" else if c == '"' then "\\\"" else [c]
  }

  /** All characters at once. */
  function EscapeTogether(value: string): string {
    if value == "" then "" else EscapeChar(value[0]) + EscapeTogether(value[1..])
  }

  function Replacement(c: char, old': char, new': string): string {
    if c == old' then new' else [c]
  }

  lemma {:induction false} ReplaceJoins(a: string, b: string, old': char, new': string)
    ensures ReplaceAll(a + b, old', new') == ReplaceAll(a, old', new') + ReplaceAll(b, old', new')
  {
    if a == "" {
      assert a + b == b;
    } else {
      ReplaceJoins(a[1..], b, old', new');
      assert (a + b)[0] == a[0] && (a + b)[1..] == a[1..] + b;
      hide Replacement;
      assert ReplaceAll(a + b, old', new') == Replacement(a[0], old', new') + ReplaceAll(a[1..] + b, old', new');
      assert ReplaceAll(a, old', new') == Replacement(a[0], old', new') + ReplaceAll(a[1..], old', new');
      hide ReplaceAll;
      JoinTwo(Replacement(a[0], old', new'), ReplaceAll(a[1..], old', new'), ReplaceAll(b, old', new'));
    }
  }

  lemma JoinTwo(a: string, b: string, c: string)
    ensures a + (b + c) == (a + b) + c
  {
  }

  lemma ReplaceOne(c: char, old': char, new': string)
    ensures ReplaceAll([c], old', new') == if c == old' then new' else [c]
  {
    assert [c][1..] == "";
  }

  lemma ReplaceTwo(c: char, d: char, old': char, new': string)
    ensures ReplaceAll([c, d], old', new')
         == (if c == old' then new' else [c]) + (if d == old' then new' else [d])
  {
    ReplaceJoins([c], [d], old', new');
    ReplaceOne(c, old', new');
    ReplaceOne(d, old', new');
    assert [c] + [d] == [c, d];
  }

  lemma EscapeOne(c: char)
    ensures EscapeLabelValue([c]) == EscapeChar(c)
  {
    ReplaceOne(c, '\\', "\\\\");
    ReplaceOne(c, '\n', "\\n");
    ReplaceOne(c, '"', "\\\"");
    ReplaceTwo('\\', '\\', '\n', "\\n");
    ReplaceTwo('\\', '\\', '"', "\\\"");
    ReplaceTwo('\\', 'n', '"', "\\\"");
  }

  /** The three successive replacements are one simultaneous substitution. */
  lemma {:induction false} EscapeIsSimultaneous(value: string)
    ensures EscapeLabelValue(value) == EscapeTogether(value)
  {
    if value != "" {
      var c, rest := [value[0]], value[1..];
      assert value == c + rest;
      ReplaceJoins(c, rest, '\\', "\\\\");
      var a, b := ReplaceAll(c, '\\', "\\\\"), ReplaceAll(rest, '\\', "\\\\");
      ReplaceJoins(a, b, '\n', "\\n");
      ReplaceJoins(ReplaceAll(a, '\n', "\\n"), ReplaceAll(b, '\n', "\\n"), '"', "\\\"");
      EscapeOne(value[0]);
      EscapeIsSimultaneous(rest);
      hide ReplaceAll, EscapeChar;
    }
  }

  // ---------- the printer ----------

  datatype Label = Label(name: string, value: string)

  datatype Sample = Sample(name: string, labels: seq<Label>, value: string)

  function LabelText(l: Label): string {
    l.name + "=\"" + EscapeLabelValue(l.value) + "\""
  }

  /** The labels between the braces. */
  function LabelsText(labels: seq<Label>): string {
    if labels == [] then ""
    else if |labels| == 1 then LabelText(labels[0])
    else LabelText(labels[0]) + "," + LabelsText(labels[1..])
  }

  function SampleLine(s: Sample): string {
    s.name + (if s.labels == [] then "" else "{" + LabelsText(s.labels) + "}") + " " + s.value + "\n"
  }

  /** The labels printed so far, each after the first preceded by a comma. */
  function LabelsSoFar(labels: seq<Label>): string {
    if labels == [] then ""
    else
      var n := |labels| - 1;
      LabelsSoFar(labels[..n]) + (if n > 0 then "," else "") + LabelText(labels[n])
  }

  lemma {:induction false} LabelsSoFarIsText(labels: seq<Label>)
    ensures LabelsSoFar(labels) == LabelsText(labels)
    decreases |labels|
  {
    if |labels| == 1 {
      assert labels[..0] == [];
    } else if |labels| > 1 {
      var n := |labels| - 1;
      LabelsSoFarIsText(labels[..n]);
      LabelsTextSnoc(labels[..n], labels[n]);
      assert labels[..n] + [labels[n]] == labels;
    }
  }

  lemma {:induction false} LabelsTextSnoc(labels: seq<Label>, l: Label)
    requires labels != []
    ensures LabelsText(labels + [l]) == LabelsText(labels) + "," + LabelText(l)
  {
    hide LabelText;
    var all := labels + [l];
    assert all[1..] == labels[1..] + [l];
    if |labels| == 1 {
      assert all[1..] == [l];
    } else {
      LabelsTextSnoc(labels[1..], l);
    }
  }

  method WriteLabel(output0: string, l: Label) returns (output: string)
    ensures output == output0 + LabelText(l)
  {
    hide EscapeLabelValue;
    output := output0 + l.name;
    output := output + "=\"";
    output := output + EscapeLabelValue(l.value);
    output := output + "\"";
  }

  method WriteLabels(output0: string, labels: seq<Label>) returns (output: string)
    ensures output == output0 + LabelsText(labels)
  {
    hide LabelText;
    output := output0;
    for index := 0 to |labels|
      invariant output == output0 + LabelsSoFar(labels[..index])
    {
      assert labels[..index + 1][..index] == labels[..index];
      if index > 0 {
        output := output + ",";
      }
      output := WriteLabel(output, labels[index]);
    }
    assert labels[..|labels|] == labels;
    LabelsSoFarIsText(labels);
  }

  /** What the printer is given: proper names and a one-line value. */
  ghost predicate Printable(s: Sample) {
    IsName(s.name) && NamedLabels(s.labels) && '\n' !in s.value
  }

  ghost predicate NamedLabels(labels: seq<Label>) {
    forall l | l in labels :: IsName(l.name)
  }

  predicate IsNameChar(c: char) {
    'a' <= c <= 'z' || 'A' <= c <= 'Z' || '0' <= c <= '9' || c == '_' || c == ':'
  }

  predicate IsName(s: string) {
    s != "" && forall c | c in s :: IsNameChar(c)
  }

  lemma {:induction false} EscapedOnOneLine(value: string)
    ensures '\n' !in EscapeTogether(value)
  {
    if value != "" {
      EscapedOnOneLine(value[1..]);
      assert '\n' !in EscapeChar(value[0]);
    }
  }

  lemma {:induction false} LabelsOnOneLine(labels: seq<Label>)
    requires NamedLabels(labels)
    ensures '\n' !in LabelsText(labels)
  {
    if labels != [] {
      assert labels[0] in labels;
      EscapeIsSimultaneous(labels[0].value);
      EscapedOnOneLine(labels[0].value);
      hide EscapeLabelValue, EscapeTogether;
      LabelsOnOneLine(labels[1..]);
    }
  }

  /** A line: one newline, at its end. */
  predicate IsLine(s: string) {
    s != "" && s[|s| - 1] == '\n' && '\n' !in s[..|s| - 1]
  }

  /** Whatever the label values hold, a sample is one line. */
  lemma SampleIsOneLine(s: Sample)
    requires Printable(s)
    ensures IsLine(SampleLine(s))
  {
    LabelsOnOneLine(s.labels);
    hide LabelsText;
    var line := SampleLine(s);
    assert line[..|line| - 1] == s.name + (if s.labels == [] then "" else "{" + LabelsText(s.labels) + "}") + " " + s.value;
  }

  /** Appends one sample line to the text. */
  method WriteSample(output0: string, name: string, labels: seq<Label>, value: string) returns (output: string)
    ensures output == output0 + SampleLine(Sample(name, labels, value))
    ensures Printable(Sample(name, labels, value)) ==> output0 <= output && IsLine(output[|output0|..])
  {
    hide LabelsText, IsLine, Printable;
    output := output0 + name;
    if |labels| > 0 {
      output := output + "{";
      output := WriteLabels(output, labels);
      output := output + "}";
    }
    output := output + " ";
    output := output + value;
    output := output + "\n";
    if Printable(Sample(name, labels, value)) { SampleIsOneLine(Sample(name, labels, value)); }
  }

  // ---------- a reader of the format ----------

  /** The leading name characters, and what follows them. */
  function ReadName(s: string): (r: (string, string))
    ensures |r.1| <= |s|
  {
    if s == "" || !IsNameChar(s[0]) then ("", s)
    else
      var (name, rest) := ReadName(s[1..]);
      ([s[0]] + name, rest)
  }

  /** A label value up to its closing quote, unescaped; a line may not end inside it. */
  function ReadValue(s: string): (r: Option<(string, string)>)
    ensures r.Some? ==> |r.value.1| < |s|
  {
    if s == "" || s[0] == '\n' then None
    else if s[0] == '"' then Some(("", s[1..]))
    else if s[0] == '\\' then
      if |s| < 2 then None
      else
        var c := if s[1] == 'n' then '\n' else s[1];
        if s[1] != 'n' && s[1] != '\\' && s[1] != '"' then None
        else
          var r := ReadValue(s[2..]);
          if r.None? then None else Some(([c] + r.value.0, r.value.1))
    else
      var r := ReadValue(s[1..]);
      if r.None? then None else Some(([s[0]] + r.value.0, r.value.1))
  }

  /** name="value" */
  function ReadLabel(s: string): (r: Option<(Label, string)>)
    ensures r.Some? ==> |r.value.1| < |s|
  {
    var (name, rest) := ReadName(s);
    if |rest| < 2 || rest[0] != '=' || rest[1] != '"' then None
    else
      var v := ReadValue(rest[2..]);
      if v.None? then None else Some((Label(name, v.value.0), v.value.1))
  }

  /** Labels up to and including the closing brace. */
  function ReadLabels(s: string): (r: Option<(seq<Label>, string)>)
    ensures r.Some? ==> |r.value.1| < |s|
    decreases |s|
  {
    var l := ReadLabel(s);
    if l.None? || l.value.1 == "" then None
    else if l.value.1[0] == '}' then Some(([l.value.0], l.value.1[1..]))
    else if l.value.1[0] == ',' then
      var more := ReadLabels(l.value.1[1..]);
      if more.None? then None else Some(([l.value.0] + more.value.0, more.value.1))
    else None
  }

  /** Everything up to the end of the line. */
  function ReadLineEnd(s: string): (r: Option<(string, string)>)
    ensures r.Some? ==> |r.value.1| < |s|
  {
    if s == "" then None
    else if s[0] == '\n' then Some(("", s[1..]))
    else
      var r := ReadLineEnd(s[1..]);
      if r.None? then None else Some(([s[0]] + r.value.0, r.value.1))
  }

  function ReadBlankValue(name: string, labels: seq<Label>, s: string): (r: Option<(Sample, string)>)
    ensures r.Some? ==> |r.value.1| < |s|
  {
    if s == "" || s[0] != ' ' then None
    else
      var v := ReadLineEnd(s[1..]);
      if v.None? then None else Some((Sample(name, labels, v.value.0), v.value.1))
  }

  /** One sample line and the text after it. */
  function ReadSample(s: string): (r: Option<(Sample, string)>)
    ensures r.Some? ==> |r.value.1| < |s|
  {
    var (name, rest) := ReadName(s);
    if rest != "" && rest[0] == '{' then
      var ls := ReadLabels(rest[1..]);
      if ls.None? then None else ReadBlankValue(name, ls.value.0, ls.value.1)
    else ReadBlankValue(name, [], rest)
  }

  // ---------- reading back what was printed ----------

  lemma {:induction false} NameReadsBack(name: string, rest: string)
    requires (forall c | c in name :: IsNameChar(c)) && (rest == "" || !IsNameChar(rest[0]))
    ensures ReadName(name + rest) == (name, rest)
  {
    if name == "" {
      assert name + rest == rest;
    } else {
      assert name[0] in name;
      assert (name + rest)[1..] == name[1..] + rest;
      NameReadsBack(name[1..], rest);
      assert name == [name[0]] + name[1..];
    }
  }

  lemma CharReadsBack(c: char, tail: string)
    requires ReadValue(tail).Some?
    ensures ReadValue(EscapeChar(c) + tail) == Some(([c] + ReadValue(tail).value.0, ReadValue(tail).value.1))
  {
    var s := EscapeChar(c) + tail;
    assert s[|EscapeChar(c)|..] == tail;
  }

  /** A decoder inverts the escape, whatever follows the closing quote. */
  lemma {:induction false} ValueReadsBack(value: string, rest: string)
    ensures ReadValue(EscapeTogether(value) + "\"" + rest) == Some((value, rest))
  {
    if value == "" {
      assert ("\"" + rest)[1..] == rest;
      assert EscapeTogether(value) + "\"" + rest == "\"" + rest;
    } else {
      ValueReadsBack(value[1..], rest);
      CharReadsBack(value[0], EscapeTogether(value[1..]) + "\"" + rest);
      hide EscapeChar, ReadValue;
      Join3(EscapeChar(value[0]), EscapeTogether(value[1..]), "\"", rest);
      assert value == [value[0]] + value[1..];
    }
  }

  lemma Join3(a: string, b: string, c: string, d: string)
    ensures a + b + c + d == a + (b + c + d)
  {
  }

  lemma LabelReadsBack(l: Label, rest: string)
    requires IsName(l.name)
    ensures ReadLabel(LabelText(l) + rest) == Some((l, rest))
  {
    EscapeIsSimultaneous(l.value);
    var body := EscapeTogether(l.value) + "\"" + rest;
    ValueReadsBack(l.value, rest);
    NameReadsBack(l.name, "=\"" + body);
    hide EscapeTogether, EscapeLabelValue, ReadValue, ReadName;
    JoinLabel(l.name, EscapeTogether(l.value), rest);
  }

  lemma JoinLabel(name: string, value: string, rest: string)
    ensures name + "=\"" + value + "\"" + rest == name + ("=\"" + (value + "\"" + rest))
    ensures ("=\"" + (value + "\"" + rest))[2..] == value + "\"" + rest
  {
  }

  lemma LastLabelReadsBack(l: Label, rest: string)
    requires IsName(l.name)
    ensures ReadLabels(LabelText(l) + ("}" + rest)) == Some(([l], rest))
  {
    LabelReadsBack(l, "}" + rest);
    hide LabelText, ReadLabel;
    assert ("}" + rest)[1..] == rest;
  }

  lemma NextLabelReadsBack(l: Label, more: string, labels: seq<Label>, rest: string)
    requires IsName(l.name) && ReadLabels(more) == Some((labels, rest))
    ensures ReadLabels(LabelText(l) + ("," + more)) == Some(([l] + labels, rest))
  {
    LabelReadsBack(l, "," + more);
    hide LabelText, ReadLabel;
    assert ("," + more)[1..] == more;
  }

  lemma {:induction false} LabelsReadBack(labels: seq<Label>, rest: string)
    requires labels != [] && NamedLabels(labels)
    ensures ReadLabels(LabelsText(labels) + "}" + rest) == Some((labels, rest))
    decreases |labels|
  {
    hide LabelText, ReadLabels;
    assert labels[0] in labels;
    if |labels| == 1 {
      LastLabelReadsBack(labels[0], rest);
      assert LabelsText(labels) + "}" + rest == LabelText(labels[0]) + ("}" + rest);
      assert labels == [labels[0]];
    } else {
      var more := LabelsText(labels[1..]) + "}" + rest;
      LabelsReadBack(labels[1..], rest);
      NextLabelReadsBack(labels[0], more, labels[1..], rest);
      assert LabelsText(labels) + "}" + rest == LabelText(labels[0]) + ("," + more) by {
        Join4(LabelText(labels[0]), ",", LabelsText(labels[1..]), "}", rest);
      }
      assert labels == [labels[0]] + labels[1..];
    }
  }

  lemma Join4(a: string, b: string, c: string, d: string, e: string)
    ensures a + b + c + d + e == a + (b + (c + d + e))
  {
  }

  lemma {:induction false} LineEndReadsBack(value: string, rest: string)
    requires '\n' !in value
    ensures ReadLineEnd(value + "\n" + rest) == Some((value, rest))
  {
    if value == "" {
      assert value + "\n" + rest == "\n" + rest;
      assert ("\n" + rest)[1..] == rest;
    } else {
      var s := value + "\n" + rest;
      assert s[1..] == value[1..] + "\n" + rest;
      LineEndReadsBack(value[1..], rest);
      assert value == [value[0]] + value[1..];
    }
  }

  lemma BareReadsBack(s: Sample, rest: string)
    requires Printable(s) && s.labels == []
    ensures ReadSample(SampleLine(s) + rest) == Some((s, rest))
  {
    hide ReadName, ReadLineEnd;
    LineEndReadsBack(s.value, rest);
    var end := " " + (s.value + "\n" + rest);
    NameReadsBack(s.name, end);
    assert end[1..] == s.value + "\n" + rest;
    assert SampleLine(s) + rest == s.name + end;
  }

  lemma LabelledReadsBack(s: Sample, rest: string)
    requires Printable(s) && s.labels != []
    ensures ReadSample(SampleLine(s) + rest) == Some((s, rest))
  {
    LineEndReadsBack(s.value, rest);
    var end := " " + (s.value + "\n" + rest);
    var inner := LabelsText(s.labels) + "}" + end;
    LabelsReadBack(s.labels, end);
    NameReadsBack(s.name, "{" + inner);
    hide ReadName, ReadLineEnd, LabelsText, ReadLabels;
    assert end[1..] == s.value + "\n" + rest;
    assert ("{" + inner)[1..] == inner;
    LineParts(s.name, LabelsText(s.labels), s.value, rest);
  }

  lemma LineParts(name: string, labels: string, value: string, rest: string)
    ensures name + ("{" + labels + "}") + " " + value + "\n" + rest == name + ("{" + (labels + "}" + (" " + (value + "\n" + rest))))
  {
  }

  /** Every printed line reads back to its name, labels and value, and to nothing more. */
  lemma SampleReadsBack(s: Sample, rest: string)
    requires Printable(s)
    ensures ReadSample(SampleLine(s) + rest) == Some((s, rest))
  {
    hide ReadSample, SampleLine, Printable;
    if s.labels == [] { BareReadsBack(s, rest); } else { LabelledReadsBack(s, rest); }
  }

  /** So two printed lines are equal only if the samples are: distinct series never print alike. */
  lemma PrintingIsInjective(a: Sample, b: Sample)
    requires Printable(a) && Printable(b) && SampleLine(a) == SampleLine(b)
    ensures a == b
  {
    SampleReadsBack(a, "");
    SampleReadsBack(b, "");
    hide ReadSample, SampleLine;
  }

  // ---------- whole texts ----------

  function SamplesText(samples: seq<Sample>): string {
    if samples == [] then "" else SampleLine(samples[0]) + SamplesText(samples[1..])
  }

  /** Sample lines up to the end of the text. */
  function ReadAll(s: string): Option<seq<Sample>>
    decreases |s|
  {
    if s == "" then Some([])
    else
      var first := ReadSample(s);
      if first.None? then None
      else
        var more := ReadAll(first.value.1);
        if more.None? then None else Some([first.value.0] + more.value)
  }

  lemma OneMoreSample(s: Sample, more: seq<Sample>)
    requires ReadSample(SampleLine(s) + SamplesText(more)) == Some((s, SamplesText(more))) && ReadAll(SamplesText(more)) == Some(more)
    ensures ReadAll(SampleLine(s) + SamplesText(more)) == Some([s] + more)
  {
    hide ReadSample, SampleLine, SamplesText;
  }

  /** A printed text reads back to exactly its samples, in order. */
  lemma {:induction false} TextReadsBack(samples: seq<Sample>)
    requires forall s | s in samples :: Printable(s)
    ensures ReadAll(SamplesText(samples)) == Some(samples)
  {
    hide ReadSample, SampleLine, Printable;
    if samples != [] {
      assert samples[0] in samples;
      SampleReadsBack(samples[0], SamplesText(samples[1..]));
      TextReadsBack(samples[1..]);
      OneMoreSample(samples[0], samples[1..]);
      assert samples == [samples[0]] + samples[1..];
    }
  }

  lemma {:induction false} TextSnoc(samples: seq<Sample>, s: Sample)
    ensures SamplesText(samples + [s]) == SamplesText(samples) + SampleLine(s)
  {
    hide SampleLine;
    if samples == [] {
      assert samples + [s] == [s] && [s][1..] == [];
    } else {
      assert (samples + [s])[1..] == samples[1..] + [s];
      TextSnoc(samples[1..], s);
    }
  }

  // ---------- decimal numbers ----------

  function Digit(n: nat): char
    requires n < 10
  {
    (('0' as int) + n) as char
  }

  /** `strconv.FormatUint` in base ten. */
  function Decimal(n: nat): string {
    if n < 10 then [Digit(n)] else Decimal(n / 10) + [Digit(n % 10)]
  }

  function ReadDecimal(s: string): nat
    requires forall i | 0 <= i < |s| :: '0' <= s[i] <= '9'
  {
    if s == "" then 0
    else
      10 * ReadDecimal(s[..|s| - 1]) + (s[|s| - 1] as int - '0' as int)
  }

  lemma {:induction false} DecimalReadsBack(n: nat)
    ensures forall i | 0 <= i < |Decimal(n)| :: '0' <= Decimal(n)[i] <= '9'
    ensures Decimal(n) != "" && ReadDecimal(Decimal(n)) == n
  {
    if n >= 10 {
      DecimalReadsBack(n / 10);
      var front := Decimal(n / 10);
      assert Decimal(n)[..|front|] == front;
    } else {
      assert Decimal(n)[..0] == "";
    }
  }

  /** The status class is the hundreds digit and "xx". */
  lemma StatusClassText(code: int)
    ensures StatusClass(code) == if 100 <= code <= 599 then Decimal(code / 100) + "xx" else "unknown"
  {
    if 100 <= code <= 599 {
      assert code / 100 == 1 || code / 100 == 2 || code / 100 == 3 || code / 100 == 4 || code / 100 == 5;
      assert Decimal(1) == "1" && Decimal(2) == "2" && Decimal(3) == "3" && Decimal(4) == "4" && Decimal(5) == "5";
    }
  }

  // ---------- the HTTP sections ----------

  const PREFIX := "spot_diggz_"
  const DURATION_SUFFIX := "_duration_seconds"
  const REQUESTS := PREFIX + "http_requests_total"
  const DURATION := PREFIX + "http_request" + DURATION_SUFFIX
  const LE_TEXTS: seq<string> := ["0.005", "0.01", "0.025", "0.05", "0.1", "0.25", "0.5", "1", "2.5", "5", "10"]

  datatype HttpSample = HttpSample(labels: HttpLabels, reading: Reading)

  /** By route, then method, then status class. */
  predicate HttpBefore(a: HttpSample, b: HttpSample) {
    if a.labels.routeTemplate != b.labels.routeTemplate then StringLess(a.labels.routeTemplate, b.labels.routeTemplate)
    else if a.labels.method' != b.labels.method' then StringLess(a.labels.method', b.labels.method')
    else StringLess(a.labels.statusClass, b.labels.statusClass)
  }

  ghost function SampleSet(m: Readings<HttpLabels>): set<HttpSample> {
    set k | k in m :: HttpSample(k, m[k])
  }

  lemma HttpOrder(m: Readings<HttpLabels>)
    ensures StrictTotalOn(HttpBefore, SampleSet(m))
  {
    StringOrder();
  }

  /** The samples of a snapshot in label order: no trace of the map's own order. */
  ghost function SortedSamples(m: Readings<HttpLabels>): (r: seq<HttpSample>)
    ensures Elements(r) == SampleSet(m) && StrictlySorted(HttpBefore, r)
  {
    HttpOrder(m);
    Ranking(HttpBefore, SampleSet(m))
  }

  ghost predicate Collected(m: Readings<HttpLabels>, left: set<HttpLabels>, samples: seq<HttpSample>) {
    && NoDuplicates(samples)
    && (forall s | s in samples :: s.labels in m && s.labels !in left && s.reading == m[s.labels])
    && (forall k | k in m && k !in left :: HttpSample(k, m[k]) in samples)
  }

  lemma CollectOne(m: Readings<HttpLabels>, left: set<HttpLabels>, samples: seq<HttpSample>, k: HttpLabels)
    requires Collected(m, left, samples) && k in left && k in m
    ensures Collected(m, left - {k}, samples + [HttpSample(k, m[k])])
  {
    assert HttpSample(k, m[k]) !in samples;
  }

  lemma CollectedAll(m: Readings<HttpLabels>, samples: seq<HttpSample>)
    requires Collected(m, {}, samples)
    ensures Elements(samples) == SampleSet(m)
  {
  }

  method SortedHTTPSamples(m: Readings<HttpLabels>) returns (samples: seq<HttpSample>)
    ensures samples == SortedSamples(m)
  {
    samples := [];
    var left := m.Keys;
    while left != {}
      invariant left <= m.Keys && Collected(m, left, samples)
      decreases |left|
    {
      hide Collected;
      var k :| k in left;
      CollectOne(m, left, samples, k);
      left := left - {k};
      samples := samples + [HttpSample(k, m[k])];
    }
    CollectedAll(m, samples);
    HttpOrder(m);
    samples := SortSlice(HttpBefore, samples);
  }

  function HttpPrometheusLabels(l: HttpLabels): seq<Label> {
    [Label("route", l.routeTemplate), Label("method", l.method'), Label("status_class", l.statusClass)]
  }

  function CountSample(s: HttpSample): Sample {
    Sample(REQUESTS, HttpPrometheusLabels(s.labels), Decimal(s.reading.count))
  }

  function CountSamples(samples: seq<HttpSample>): seq<Sample> {
    seq(|samples|, i requires 0 <= i < |samples| => CountSample(samples[i]))
  }

  /** The lines of one histogram: the buckets, +Inf, the sum and the count. */
  function HistogramSamples(name: string, labels: seq<Label>, h: Histogram, format: real -> string): seq<Sample>
    requires |h.buckets| == |LE_TEXTS|
  {
    seq(|LE_TEXTS|, i requires 0 <= i < |LE_TEXTS| =>
          Sample(name + "_bucket", labels + [Label("le", LE_TEXTS[i])], Decimal(h.buckets[i])))
    + [Sample(name + "_bucket", labels + [Label("le", "+Inf")], Decimal(h.count)),
       Sample(name + "_sum", labels, format(h.sum)),
       Sample(name + "_count", labels, Decimal(h.count))]
  }

  /** format is the shortest decimal text of a float. */
  method WriteHistogram(output0: string, name: string, labels: seq<Label>, h: Histogram, format: real -> string)
    returns (output: string)
    requires |h.buckets| == |LE_TEXTS|
    ensures output == output0 + SamplesText(HistogramSamples(name, labels, h, format))
  {
    hide SampleLine, SamplesText, Decimal;
    ghost var samples := HistogramSamples(name, labels, h, format);
    NothingPrinted();
    output := output0;
    for i := 0 to |LE_TEXTS|
      invariant output == output0 + SamplesText(samples[..i])
    {
      output := WriteSample(output, name + "_bucket", labels + [Label("le", LE_TEXTS[i])], Decimal(h.buckets[i]));
      AppendLine(samples, i);
    }
    output := WriteTotals(output, name, labels, h, format, samples, output0);
  }

  lemma NothingPrinted()
    ensures SamplesText([]) == ""
  {
  }

  /** The last three lines of a histogram. */
  method WriteTotals(output1: string, name: string, labels: seq<Label>, h: Histogram, format: real -> string,
                     ghost samples: seq<Sample>, ghost output0: string) returns (output: string)
    requires |h.buckets| == |LE_TEXTS| && samples == HistogramSamples(name, labels, h, format)
    requires output1 == output0 + SamplesText(samples[..|LE_TEXTS|])
    ensures output == output0 + SamplesText(samples)
  {
    hide SampleLine, SamplesText, Decimal;
    var n := |LE_TEXTS|;
    output := WriteSample(output1, name + "_bucket", labels + [Label("le", "+Inf")], Decimal(h.count));
    AppendLine(samples, n);
    output := WriteSample(output, name + "_sum", labels, format(h.sum));
    AppendLine(samples, n + 1);
    output := WriteSample(output, name + "_count", labels, Decimal(h.count));
    AppendLine(samples, n + 2);
    assert samples[..n + 3] == samples;
  }

  lemma AppendLine(samples: seq<Sample>, i: nat)
    requires i < |samples|
    ensures SamplesText(samples[..i + 1]) == SamplesText(samples[..i]) + SampleLine(samples[i])
  {
    TextSnoc(samples[..i], samples[i]);
    assert samples[..i] + [samples[i]] == samples[..i + 1];
  }

  method WriteCounts(output0: string, samples: seq<HttpSample>) returns (output: string)
    ensures output == output0 + SamplesText(CountSamples(samples))
  {
    hide SampleLine, SamplesText, Decimal, Printable, IsLine;
    output := output0;
    ghost var all := CountSamples(samples);
    NothingPrinted();
    for i := 0 to |samples|
      invariant output == output0 + SamplesText(all[..i])
    {
      output := WriteSample(output, REQUESTS, HttpPrometheusLabels(samples[i].labels), Decimal(samples[i].reading.count));
      AppendLine(all, i);
    }
    assert all[..|samples|] == all;
  }

  // ---------- what the sections promise ----------

  lemma NamesJoin(a: string, b: string)
    requires IsName(a) && IsName(b)
    ensures IsName(a + b)
  {
    assert forall c | c in a + b :: c in a || c in b;
  }

  lemma NameParts()
    ensures IsName(PREFIX) && IsName(DURATION_SUFFIX) && IsName("http_requests_total") && IsName("http_request")
  {
  }

  lemma HttpLabelNames()
    ensures IsName("route") && IsName("method") && IsName("status_class") && IsName("le")
  {
  }

  lemma NamesAreNames()
    ensures IsName(REQUESTS) && IsName(DURATION) && IsName("route") && IsName("method") && IsName("status_class") && IsName("le")
  {
    hide IsName;
    NameParts();
    HttpLabelNames();
    NamesJoin(PREFIX, "http_requests_total");
    NamesJoin(PREFIX, "http_request");
    NamesJoin(PREFIX + "http_request", DURATION_SUFFIX);
  }

  lemma CountSampleIsPrintable(s: HttpSample)
    ensures Printable(CountSample(s))
  {
    NamesAreNames();
    DecimalReadsBack(s.reading.count);
  }

  /**
   The printed counter section reads back to the snapshot: one line per label triple, with
   the route, method and status class exactly as recorded, in an order fixed by the labels.
   */
  lemma CountersReadBack(m: Readings<HttpLabels>)
    ensures var lines := CountSamples(SortedSamples(m));
            && ReadAll(SamplesText(lines)) == Some(lines)
            && (forall k | k in m :: Sample(REQUESTS, HttpPrometheusLabels(k), Decimal(m[k].count)) in lines)
            && (forall i, j | 0 <= i < j < |lines| :: lines[i].labels != lines[j].labels)
  {
    var samples := SortedSamples(m);
    var lines := CountSamples(samples);
    forall s | s in lines
      ensures Printable(s)
    {
      var i :| 0 <= i < |samples| && lines[i] == s;
      CountSampleIsPrintable(samples[i]);
    }
    hide Printable;
    TextReadsBack(lines);
    hide ReadAll, SamplesText;
    forall k | k in m
      ensures Sample(REQUESTS, HttpPrometheusLabels(k), Decimal(m[k].count)) in lines
    {
      assert HttpSample(k, m[k]) in Elements(samples);
      var i :| 0 <= i < |samples| && samples[i] == HttpSample(k, m[k]);
      assert lines[i] == CountSample(samples[i]);
    }
    forall i, j | 0 <= i < j < |lines|
      ensures lines[i].labels != lines[j].labels
    {
      DistinctTriples(samples[i], samples[j]);
    }
  }

  lemma DistinctTriples(a: HttpSample, b: HttpSample)
    requires HttpBefore(a, b)
    ensures HttpPrometheusLabels(a.labels) != HttpPrometheusLabels(b.labels)
  {
    StringLessIrreflexive(a.labels.statusClass);
    var la, lb := HttpPrometheusLabels(a.labels), HttpPrometheusLabels(b.labels);
    assert la[0].value == a.labels.routeTemplate && lb[0].value == b.labels.routeTemplate;
    assert la[1].value == a.labels.method' && lb[1].value == b.labels.method';
    assert la[2].value == a.labels.statusClass && lb[2].value == b.labels.statusClass;
  }

  /** Label triples are told apart by what is printed. */
  lemma TriplesPrintApart(a: HttpLabels, b: HttpLabels, x: nat, y: nat)
    requires SampleLine(Sample(REQUESTS, HttpPrometheusLabels(a), Decimal(x)))
             == SampleLine(Sample(REQUESTS, HttpPrometheusLabels(b), Decimal(y)))
    ensures a == b && x == y
  {
    var s, t := Sample(REQUESTS, HttpPrometheusLabels(a), Decimal(x)), Sample(REQUESTS, HttpPrometheusLabels(b), Decimal(y));
    NamesAreNames();
    DecimalReadsBack(x);
    DecimalReadsBack(y);
    PrintingIsInjective(s, t);
    hide SampleLine, Decimal;
    assert s.labels[0] == t.labels[0] && s.labels[1] == t.labels[1] && s.labels[2] == t.labels[2];
  }

  // ---------- histograms on the page ----------

  lemma SuffixedIsName(name: string, suffix: string)
    requires IsName(name) && forall c | c in suffix :: IsNameChar(c)
    ensures IsName(name + suffix)
  {
  }

  lemma HistogramIsPrintable(name: string, labels: seq<Label>, h: Histogram, format: real -> string, i: nat)
    requires IsName(name) && NamedLabels(labels) && (forall x :: '\n' !in format(x)) && |h.buckets| == |LE_TEXTS|
    requires i < |HistogramSamples(name, labels, h, format)|
    ensures Printable(HistogramSamples(name, labels, h, format)[i])
  {
    SuffixedIsName(name, "_bucket");
    SuffixedIsName(name, "_sum");
    SuffixedIsName(name, "_count");
    NamesAreNames();
    DecimalReadsBack(h.count);
    if i < |LE_TEXTS| { DecimalReadsBack(h.buckets[i]); }
    hide IsName, Decimal;
  }

  lemma BoundTextsDiffer(i: nat, j: nat)
    requires i < j < |LE_TEXTS|
    ensures LE_TEXTS[i] != LE_TEXTS[j] && LE_TEXTS[i] != "+Inf" && LE_TEXTS[j] != "+Inf"
  {
  }

  lemma SuffixesDiffer(name: string)
    ensures name + "_bucket" != name + "_sum" && name + "_bucket" != name + "_count" && name + "_sum" != name + "_count"
  {
    assert |name + "_bucket"| == |name| + 7 && |name + "_sum"| == |name| + 4 && |name + "_count"| == |name| + 6;
  }

  ghost predicate SameSeries(a: Sample, b: Sample) {
    a.name == b.name && a.labels == b.labels
  }

  lemma HistogramSeriesDiffer(name: string, labels: seq<Label>, h: Histogram, format: real -> string, i: nat, j: nat)
    requires |h.buckets| == |LE_TEXTS| && i < j < |HistogramSamples(name, labels, h, format)|
    ensures !SameSeries(HistogramSamples(name, labels, h, format)[i], HistogramSamples(name, labels, h, format)[j])
  {
    hide Decimal;
    var a, b := HistogramSamples(name, labels, h, format)[i], HistogramSamples(name, labels, h, format)[j];
    var n := |LE_TEXTS|;
    if j <= n {
      assert a.labels[|labels|] == Label("le", LE_TEXTS[i]);
      if j < n {
        BoundTextsDiffer(i, j);
        assert b.labels[|labels|] == Label("le", LE_TEXTS[j]);
      } else {
        BoundTextsDiffer(if i == 0 then 0 else i - 1, if i == 0 then 1 else i);
        assert b.labels[|labels|] == Label("le", "+Inf");
      }
    } else {
      SuffixesDiffer(name);
    }
  }

  /** A histogram's lines read back to its samples, and no two of them name the same series. */
  lemma HistogramReadsBack(name: string, labels: seq<Label>, h: Histogram, format: real -> string)
    requires IsName(name) && NamedLabels(labels) && (forall x :: '\n' !in format(x)) && |h.buckets| == |LE_TEXTS|
    ensures var lines := HistogramSamples(name, labels, h, format);
            && ReadAll(SamplesText(lines)) == Some(lines)
            && (forall i, j | 0 <= i < j < |lines| :: !SameSeries(lines[i], lines[j]))
  {
    var lines := HistogramSamples(name, labels, h, format);
    forall i | 0 <= i < |lines| { HistogramIsPrintable(name, labels, h, format, i); }
    forall i, j | 0 <= i < j < |lines| { HistogramSeriesDiffer(name, labels, h, format, i, j); }
    hide Printable, SameSeries, ReadAll, SamplesText, Decimal;
    TextReadsBack(lines);
  }

  /** The count a line carries, None if its value is no decimal number. */
  function CountOn(s: Sample): Option<nat> {
    if s.value != "" && forall i | 0 <= i < |s.value| :: '0' <= s.value[i] <= '9' then Some(ReadDecimal(s.value)) else None
  }

  lemma CountIsOn(name: string, labels: seq<Label>, n: nat)
    ensures CountOn(Sample(name, labels, Decimal(n))) == Some(n)
  {
    DecimalReadsBack(n);
  }

  lemma CountOfReading(r: Reading, latencies: seq<real>)
    requires Summarises(r, latencies)
    ensures |r.latency.buckets| == |LE_TEXTS| && r.latency.count == |latencies|
  {
  }

  lemma LinesCarryCounts(name: string, labels: seq<Label>, h: Histogram, format: real -> string)
    requires |h.buckets| == |LE_TEXTS|
    ensures var lines, n := HistogramSamples(name, labels, h, format), |LE_TEXTS|;
            && (forall i | 0 <= i < n :: CountOn(lines[i]) == Some(h.buckets[i]))
            && CountOn(lines[n]) == CountOn(lines[n + 2]) == Some(h.count)
  {
    hide CountOn, Decimal;
    forall i | 0 <= i < |LE_TEXTS| { CountIsOn(name + "_bucket", labels + [Label("le", LE_TEXTS[i])], h.buckets[i]); }
    CountIsOn(name + "_bucket", labels + [Label("le", "+Inf")], h.count);
    CountIsOn(name + "_count", labels, h.count);
  }

  /** Bucket lines with non-decreasing counts, the last of them +Inf with the total, like the _count line. */
  ghost predicate CumulativeLines(lines: seq<Sample>, total: nat) {
    var n := |LE_TEXTS|;
    && |lines| == n + 3
    && (forall i | 0 <= i <= n :: CountOn(lines[i]).Some?)
    && (forall i, j | 0 <= i <= j <= n :: CountOn(lines[i]).value <= CountOn(lines[j]).value)
    && CountOn(lines[n]) == CountOn(lines[n + 2]) == Some(total)
  }

  lemma PrintedReading(r: Reading, latencies: seq<real>, name: string, labels: seq<Label>, format: real -> string)
    requires Summarises(r, latencies) && |r.latency.buckets| == |LE_TEXTS|
    ensures CumulativeLines(HistogramSamples(name, labels, r.latency, format), |latencies|)
  {
    CountOfReading(r, latencies);
    LinesCarryCounts(name, labels, r.latency, format);
    forall i, j | 0 <= i <= j < |LE_TEXTS| { BucketsAreCumulative(r, latencies, i, j); }
    assert |HistogramSamples(name, labels, r.latency, format)| == |LE_TEXTS| + 3;
    hide CountOn, HistogramSamples, Summarises;
  }

  /**
   The histogram of any label, after any observations, is printed as the format wants it:
   the numbers read off its bucket lines never decrease, none exceeds the one on the +Inf
   line, and that is the number of observations made under the label, like the _count line's.
   */
  lemma PrintedBucketsAreCumulative<K>(history: seq<Observation<K>>, k: K, name: string, labels: seq<Label>,
                                       format: real -> string)
    requires k in After(history)
    ensures CumulativeLines(HistogramSamples(name, labels, After(history)[k].latency, format), |Latencies(history, k)|)
  {
    BucketsCount(history, k);
    hide HistogramSamples, CumulativeLines, After, Latencies;
    PrintedReading(After(history)[k], Latencies(history, k), name, labels, format);
  }
}
