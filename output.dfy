/** Styled text and the `MultiStyled` composer of src/output.rs.

    A style is the part of a terminal content style that the program sets:
    a foreground colour, bold and underlined. Rendering wraps a styled
    section's content in a start sequence and a reset sequence; a section in
    the default style renders as its bare content. */
module Output {
  import opened Wrappers
  import opened Strings

  datatype Color = Blue | Green | Red

  datatype Style = Style(foreground: Option<Color>, bold: bool, underlined: bool)

  /** `ContentStyle::default()`: no colour, no attribute. */
  const DefaultStyle: Style := Style(None, false, false)

  // The three builders below stand in for crossterm's `Stylize` methods;
  // their contracts say which attribute each one sets and that it keeps the others.

  /** `.blue()`, `.green()`, `.red()`: set the foreground colour. */
  function Colored(s: Style, c: Color): (r: Style)
    ensures r.foreground == Some(c) && r.bold == s.bold && r.underlined == s.underlined
  {
    s.(foreground := Some(c))
  }

  /** `.bold()`: add the bold attribute. */
  function Bolded(s: Style): (r: Style)
    ensures r.bold && r.foreground == s.foreground && r.underlined == s.underlined
  {
    s.(bold := true)
  }

  /** `.underlined()`: add the underline attribute. */
  function Underlined(s: Style): (r: Style)
    ensures r.underlined && r.foreground == s.foreground && r.bold == s.bold
  {
    s.(underlined := true)
  }

  /** A string together with the style it is printed in. */
  datatype StyledContent = StyledContent(content: string, style: Style)

  /** `Stylize::stylize`: the content in the default style. */
  function Stylize(s: string): (r: StyledContent)
    ensures r.content == s && r.style == DefaultStyle
  {
    StyledContent(s, DefaultStyle)
  }

  /** The escape sequence that switches `style` on. The byte values are placeholders. */
  function StyleOn(style: Style): string {
    (match style.foreground
     case None => ""
     case Some(c) => match c
       case Blue => "\U{1b}[34m"
       case Green => "\U{1b}[32m"
       case Red => "\U{1b}[31m")
    + (if style.bold then "\U{1b}[1m" else "")
    + (if style.underlined then "\U{1b}[4m" else "")
  }

  /** The escape sequence that resets the terminal after a styled section. */
  const StyleOff: string := "\U{1b}[0m"

  /** The `Display` of one styled section: the content, wrapped in escape
      sequences unless the style is the default one. */
  function Render(sec: StyledContent): (r: string)
    ensures sec.style == DefaultStyle ==> r == sec.content
    ensures |r| >= |sec.content|
  {
    if sec.style == DefaultStyle then sec.content
    else StyleOn(sec.style) + sec.content + StyleOff
  }

  /** The rendering shows the content itself, right after the style's opening
      escape sequences. */
  lemma RenderShowsContent(sec: StyledContent)
    ensures var r, k := Render(sec), |StyleOn(sec.style)|;
      k + |sec.content| <= |r| && r[..k] == StyleOn(sec.style) && r[k..k + |sec.content|] == sec.content
  {
    if sec.style == DefaultStyle {
      assert StyleOn(sec.style) == "";
    }
  }

  /** The sections rendered one after another. */
  function RenderAll(secs: seq<StyledContent>): string {
    if secs == [] then "" else RenderAll(secs[..|secs| - 1]) + Render(secs[|secs| - 1])
  }

  /** The contents of the sections, in order. */
  function Contents(secs: seq<StyledContent>): (r: seq<string>)
    ensures |r| == |secs| && forall i :: 0 <= i < |secs| ==> r[i] == secs[i].content
  {
    seq(|secs|, i requires 0 <= i < |secs| => secs[i].content)
  }

  /** The `len` fold: the byte lengths of the contents, added up from the front. */
  function ContentLen(secs: seq<StyledContent>): nat {
    if secs == [] then 0 else ContentLen(secs[..|secs| - 1]) + Utf8Len(secs[|secs| - 1].content)
  }

  /** One more section adds its content's length. */
  lemma ContentLenSnoc(init: seq<StyledContent>, sec: StyledContent)
    ensures ContentLen(init + [sec]) == ContentLen(init) + Utf8Len(sec.content)
  {
    assert (init + [sec])[..|init|] == init;
  }

  /** The concatenated contents grow by the last section's content. */
  lemma ContentsSnoc(secs: seq<StyledContent>)
    requires secs != []
    ensures Concat(Contents(secs)) == Concat(Contents(secs[..|secs| - 1])) + secs[|secs| - 1].content
  {
    var init := secs[..|secs| - 1];
    assert Contents(secs) == Contents(init) + [secs[|secs| - 1].content];
    ConcatSnoc(Contents(init), secs[|secs| - 1].content);
  }

  /** The fold measures the concatenated contents in bytes. */
  lemma {:induction false} ContentLenIsConcatLen(secs: seq<StyledContent>)
    ensures ContentLen(secs) == Utf8Len(Concat(Contents(secs)))
    decreases |secs|
  {
    if secs != [] {
      var init := secs[..|secs| - 1];
      ContentLenIsConcatLen(init);
      ContentsSnoc(secs);
      Utf8LenAppend(Concat(Contents(init)), secs[|secs| - 1].content);
    }
  }

  /** The length ignores styles: sections with the same contents have the same length. */
  lemma {:induction false} ContentLenStyleFree(a: seq<StyledContent>, b: seq<StyledContent>)
    requires Contents(a) == Contents(b)
    ensures ContentLen(a) == ContentLen(b)
  {
    ContentLenIsConcatLen(a);
    ContentLenIsConcatLen(b);
  }

  /** Appending sections adds their lengths. */
  lemma {:induction false} ContentLenAppend(a: seq<StyledContent>, b: seq<StyledContent>)
    ensures ContentLen(a + b) == ContentLen(a) + ContentLen(b)
    decreases |b|
  {
    if b == [] {
      assert a + b == a;
    } else {
      assert (a + b)[..|a + b| - 1] == a + b[..|b| - 1];
      ContentLenAppend(a, b[..|b| - 1]);
    }
  }

  /** Sections that are all in the default style render as their concatenated contents. */
  lemma {:induction false} RenderAllPlain(secs: seq<StyledContent>)
    requires forall i :: 0 <= i < |secs| ==> secs[i].style == DefaultStyle
    ensures RenderAll(secs) == Concat(Contents(secs))
    decreases |secs|
  {
    if secs != [] {
      var init := secs[..|secs| - 1];
      RenderAllPlain(init);
      ContentsSnoc(secs);
    }
  }

  /** Rendering never loses characters: the output is at least as long as the contents. */
  lemma {:induction false} RenderAllCovers(secs: seq<StyledContent>)
    ensures |RenderAll(secs)| >= |Concat(Contents(secs))|
    decreases |secs|
  {
    if secs != [] {
      var init := secs[..|secs| - 1];
      RenderAllCovers(init);
      ContentsSnoc(secs);
      assert RenderAll(secs) == RenderAll(init) + Render(secs[|secs| - 1]);
    }
  }

  /** Rendering distributes over concatenation of sections. */
  lemma {:induction false} RenderAllAppend(a: seq<StyledContent>, b: seq<StyledContent>)
    ensures RenderAll(a + b) == RenderAll(a) + RenderAll(b)
    decreases |b|
  {
    if b == [] {
      assert a + b == a;
    } else {
      var init, last := b[..|b| - 1], b[|b| - 1];
      assert (a + b)[..|a + b| - 1] == a + init;
      assert (a + b)[|a + b| - 1] == last;
      RenderAllAppend(a, init);
      assert RenderAll(a + b) == RenderAll(a + init) + Render(last);
      assert RenderAll(b) == RenderAll(init) + Render(last);
      AppendAssoc(RenderAll(a), RenderAll(init), Render(last));
    }
  }

  /** A line of text made of styled sections. */
  class MultiStyled {
    var sections: seq<StyledContent>

    /** `MultiStyled::new`: no sections. */
    constructor New()
      ensures sections == []
    {
      sections := [];
    }

    /** `From<StyledContent>`: exactly the one section. */
    constructor From(value: StyledContent)
      ensures sections == [value]
    {
      sections := [value];
    }

    /** `with`: push, then hand back the same object. */
    method With(content: StyledContent) returns (r: MultiStyled)
      modifies this
      ensures r == this
      ensures sections == old(sections) + [content]
    {
      Push(content);
      r := this;
    }

    /** `push`: one more section at the end. */
    method Push(content: StyledContent)
      modifies this
      ensures sections == old(sections) + [content]
    {
      sections := sections + [content];
    }

    /** `insert`: the section lands at `index` and later ones shift right.
        `Vec::insert` panics past the end; here that fails and changes nothing. */
    method Insert(index: nat, content: StyledContent) returns (ok: bool)
      modifies this
      ensures ok <==> index <= |old(sections)|
      ensures ok ==> |sections| == |old(sections)| + 1 && sections[index] == content
                     && sections[..index] == old(sections)[..index]
                     && sections[index + 1..] == old(sections)[index..]
      ensures !ok ==> sections == old(sections)
    {
      if index > |sections| {
        return false;
      }
      sections := sections[..index] + [content] + sections[index..];
      ok := true;
    }

    /** `section`: the section at `index`, if there is one. */
    function Section(index: nat): (r: Option<StyledContent>)
      reads this
      ensures r.Some? <==> index < |sections|
      ensures r.Some? ==> r.value == sections[index]
    {
      if index < |sections| then Some(sections[index]) else None
    }

    /** `len`: the byte length of all contents together, styles ignored. */
    function Len(): (n: nat)
      reads this
      ensures n == Utf8Len(Concat(Contents(sections)))
    {
      ContentLenIsConcatLen(sections);
      ContentLen(sections)
    }

    /** `output` (the `Display` loop): each section rendered, in order. */
    method Output() returns (s: string)
      ensures s == RenderAll(sections)
    {
      s := "";
      for i := 0 to |sections|
        invariant s == RenderAll(sections[..i])
      {
        assert sections[..i + 1][..i] == sections[..i];
        s := s + Render(sections[i]);
      }
      assert sections[..|sections|] == sections;
    }
  }
}
