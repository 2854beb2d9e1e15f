/**
 The whole metrics page (internal/observability/prometheus.go:42-191) against a reader of
 the text exposition format 0.0.4: comment lines and samples read back section by section,
 and no two samples of a page name the same series.
 */
module Page {
  import opened Wrappers
  import opened Metrics
  import opened Exposition

  /** One metric: its HELP and TYPE lines, and the samples that follow them. */
  datatype Section = Section(name: string, kind: string, help: string, samples: seq<Sample>)

  // ---------- printing ----------

  function HelpLine(name: string, help: string): string {
    "# HELP " + name + " " + help + "\n"
  }

  function TypeLine(name: string, kind: string): string {
    "# TYPE " + name + " " + kind + "\n"
  }

  function SectionText(s: Section): string {
    HelpLine(s.name, s.help) + TypeLine(s.name, s.kind) + SamplesText(s.samples)
  }

  function PageText(sections: seq<Section>): string {
    if sections == [] then "" else SectionText(sections[0]) + PageText(sections[1..])
  }

  // ---------- a reader of pages ----------

  /** The text after a keyword that starts a line. */
  function ReadKeyword(s: string, keyword: string): Option<string> {
    if keyword <= s then Some(s[|keyword|..]) else None
  }

  /** "# HELP name text" or "# TYPE name text". */
  function ReadComment(s: string, keyword: string): (r: Option<((string, string), string)>)
    ensures r.Some? ==> |r.value.1| < |s|
  {
    var s' :- ReadKeyword(s, keyword);
    var (name, rest) := ReadName(s');
    if rest == "" || rest[0] != ' ' then None
    else
      var line :- ReadLineEnd(rest[1..]);
      Some(((name, line.0), line.1))
  }

  /** Sample lines up to the next comment or the end of the text. */
  function ReadSamples(s: string): (r: Option<(seq<Sample>, string)>)
    ensures r.Some? ==> |r.value.1| <= |s|
    decreases |s|
  {
    if s == "" || s[0] == '#' then Some(([], s))
    else
      var first :- ReadSample(s);
      var more :- ReadSamples(first.1);
      Some(([first.0] + more.0, more.1))
  }

  /** A HELP line, the TYPE line of the same metric, and its samples. */
  function ReadSection(s: string): (r: Option<(Section, string)>)
    ensures r.Some? ==> |r.value.1| < |s|
  {
    var help :- ReadComment(s, "# HELP ");
    var kind :- ReadComment(help.1, "# TYPE ");
    if kind.0.0 != help.0.0 then None
    else
      var samples :- ReadSamples(kind.1);
      Some((Section(help.0.0, kind.0.1, help.0.1, samples.0), samples.1))
  }

  function ReadPage(s: string): Option<seq<Section>>
    decreases |s|
  {
    if s == "" then Some([])
    else
      var first :- ReadSection(s);
      var more :- ReadPage(first.1);
      Some([first.0] + more)
  }

  // ---------- a printed page reads back ----------

  ghost predicate AllPrintable(samples: seq<Sample>) {
    forall s | s in samples :: Printable(s)
  }

  /** The format escapes backslashes and newlines in a help text; the printer's texts hold neither. */
  ghost predicate PrintableSection(s: Section) {
    IsName(s.name) && '\n' !in s.help && '\\' !in s.help && '\n' !in s.kind && AllPrintable(s.samples)
  }

  lemma CommentReadsBack(keyword: string, name: string, text: string, rest: string)
    requires IsName(name) && '\n' !in text
    ensures ReadComment(keyword + name + " " + text + "\n" + rest, keyword) == Some(((name, text), rest))
  {
    hide ReadName, ReadLineEnd, IsName;
    LineEndReadsBack(text, rest);
    NamesHaveNameChars(name);
    NameReadsBack(name, " " + (text + "\n" + rest));
    CommentParts(keyword, name, text, rest);
  }

  lemma NamesHaveNameChars(name: string)
    requires IsName(name)
    ensures name != "" && forall c | c in name :: IsNameChar(c)
  {
  }

  lemma CommentParts(keyword: string, name: string, text: string, rest: string)
    ensures var line := keyword + name + " " + text + "\n" + rest;
            keyword <= line && line[|keyword|..] == name + (" " + (text + "\n" + rest))
    ensures (" " + (text + "\n" + rest))[1..] == text + "\n" + rest
  {
  }

  /** Where samples end: at the end of the text or at a comment. */
  predicate AtBreak(rest: string) {
    rest == "" || rest[0] == '#'
  }

  lemma SampleStartsWithName(s: Sample, rest: string)
    requires Printable(s)
    ensures SampleLine(s) + rest != "" && (SampleLine(s) + rest)[0] != '#'
  {
    NamesHaveNameChars(s.name);
    hide LabelsText;
    assert SampleLine(s)[0] == s.name[0] && s.name[0] in s.name;
  }

  lemma {:induction false} SamplesReadBack(samples: seq<Sample>, rest: string)
    requires AllPrintable(samples) && AtBreak(rest)
    ensures ReadSamples(SamplesText(samples) + rest) == Some((samples, rest))
  {
    hide ReadSample, SampleLine, Printable;
    if samples == [] {
      assert SamplesText(samples) + rest == rest;
    } else {
      assert samples[0] in samples;
      SamplesReadBack(samples[1..], rest);
      OneMoreSampleRead(samples[0], samples[1..], rest);
      assert SamplesText(samples) + rest == SampleLine(samples[0]) + (SamplesText(samples[1..]) + rest);
      assert samples == [samples[0]] + samples[1..];
    }
  }

  lemma OneMoreSampleRead(s: Sample, more: seq<Sample>, rest: string)
    requires Printable(s) && ReadSamples(SamplesText(more) + rest) == Some((more, rest))
    ensures ReadSamples(SampleLine(s) + (SamplesText(more) + rest)) == Some(([s] + more, rest))
  {
    hide ReadSample, SampleLine, Printable, SamplesText;
    SampleReadsBack(s, SamplesText(more) + rest);
    SampleStartsWithName(s, SamplesText(more) + rest);
  }

  lemma SectionReadsBack(s: Section, rest: string)
    requires PrintableSection(s) && AtBreak(rest)
    ensures ReadSection(SectionText(s) + rest) == Some((s, rest))
  {
    hide ReadComment, ReadSamples, SamplesText, IsName;
    var tail := SamplesText(s.samples) + rest;
    SamplesReadBack(s.samples, rest);
    CommentReadsBack("# TYPE ", s.name, s.kind, tail);
    CommentReadsBack("# HELP ", s.name, s.help, TypeLine(s.name, s.kind) + tail);
    SectionParts(HelpLine(s.name, s.help), TypeLine(s.name, s.kind), SamplesText(s.samples), rest);
  }

  lemma SectionParts(a: string, b: string, c: string, rest: string)
    ensures a + b + c + rest == a + (b + (c + rest))
  {
  }

  lemma StartsWithComment(sections: seq<Section>)
    ensures AtBreak(PageText(sections))
  {
    if sections != [] {
      var s := sections[0];
      assert HelpLine(s.name, s.help)[0] == '#';
      hide HelpLine, TypeLine, SamplesText;
    }
  }

  lemma SectionIsNotEmpty(s: Section, rest: string)
    ensures SectionText(s) + rest != ""
  {
    assert |HelpLine(s.name, s.help)| > 0;
    hide HelpLine, TypeLine, SamplesText;
  }

  /** A page reads back to exactly its sections, each TYPE line before its samples, in order. */
  lemma {:induction false} PageReadsBack(sections: seq<Section>)
    requires forall s | s in sections :: PrintableSection(s)
    ensures ReadPage(PageText(sections)) == Some(sections)
  {
    hide PrintableSection, ReadSection, SectionText;
    if sections != [] {
      assert sections[0] in sections;
      PageReadsBack(sections[1..]);
      StartsWithComment(sections[1..]);
      SectionReadsBack(sections[0], PageText(sections[1..]));
      SectionIsNotEmpty(sections[0], PageText(sections[1..]));
      assert sections == [sections[0]] + sections[1..];
    }
  }
}
