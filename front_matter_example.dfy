/**
 * The README example of a project repository, worked through the extractor:
 *
 *   ---
 *   title: "Foo"
 *   showcase: true
 *   order: 2
 *   technologies:
 *     - "Go"
 *     - "Rust"
 *   ---
 *
 * The document is assembled from its lines, so that each step of a match can
 * be checked on a short piece of text.
 */
module FrontMatterExample {
  import opened Wrappers
  import opened Seqs
  import opened FrontMatter

  const TitleLine: string := "title: \"Foo\""
  const ShowcaseLine: string := "showcase: true"
  const OrderLine: string := "order: 2"
  const TechnologiesLine: string := "technologies:"
  const GoLine: string := "  - \"Go\""
  const RustLine: string := "  - \"Rust\""

  const ExampleLines: seq<string> := [TitleLine, ShowcaseLine, OrderLine, TechnologiesLine, GoLine, RustLine]

  /** The text between the two delimiters. */
  const ExampleYaml: string :=
    TitleLine + "\n" + ShowcaseLine + "\n" + OrderLine + "\n" + TechnologiesLine + "\n" + GoLine + "\n" + RustLine

  /** The whole README. */
  const ExampleReadme: string := Opening + ExampleYaml + Closing

  lemma ExampleYamlIsJoin()
    ensures ExampleYaml == Join(ExampleLines)
  {
    var ls := ExampleLines;
    assert Join(ls[5..]) == RustLine;
    assert ls[4..][1..] == ls[5..];
    assert Join(ls[4..]) == GoLine + "\n" + RustLine;
    assert ls[3..][1..] == ls[4..];
    assert Join(ls[3..]) == TechnologiesLine + "\n" + GoLine + "\n" + RustLine;
    assert ls[2..][1..] == ls[3..];
    assert Join(ls[2..]) == OrderLine + "\n" + TechnologiesLine + "\n" + GoLine + "\n" + RustLine;
    assert ls[1..][1..] == ls[2..];
    assert Join(ls[1..]) == ShowcaseLine + "\n" + OrderLine + "\n" + TechnologiesLine + "\n" + GoLine + "\n" + RustLine;
  }

  /** The block is found, and it is exactly the six lines. */
  lemma ExampleBlock()
    ensures Block(ExampleReadme) == Some(ExampleYaml)
  {
    ExampleYamlIsJoin();
    forall l | l in ExampleLines ensures '\n' !in l && (l == [] || l[0] != '-') {
    }
    NoClosingInJoin(ExampleLines);
    BlockOfWrapped(ExampleYaml);
  }

  lemma ExampleTitle()
    ensures FirstCapture(ExampleYaml, "title:", 0, QuotedString) == Some("Foo")
  {
    var y := ExampleYaml;
    assert y[0..6] == "title:";
    assert FindFrom(y, "title:", 0) == Some(0);
    ExampleTitleCapture();
  }

  lemma ExampleTitleCapture()
    ensures CaptureAt(ExampleYaml, "title:", 0, QuotedString) == Some("Foo")
  {
    var y := ExampleYaml;
    assert y[0..6] == "title:";
    assert y[6] == ' ' && y[7] == '"' && y[8] == 'F' && y[9] == 'o' && y[10] == 'o' && y[11] == '"';
    assert RunEnd(y, 7, IsSpace) == 7;
    assert RunEnd(y, 6, IsSpace) == 7;
    assert RunEnd(y, 11, IsNotQuote) == 11;
    assert RunEnd(y, 10, IsNotQuote) == 11;
    assert RunEnd(y, 9, IsNotQuote) == 11;
    assert RunEnd(y, 8, IsNotQuote) == 11;
    assert y[8..11] == "Foo";
  }

  /** No `p` anywhere, so no description. */
  lemma ExampleDescription()
    ensures FirstCapture(ExampleYaml, "description:", 0, QuotedString) == None
  {
    assert "description:"[6] == 'p' && 'p' !in ExampleYaml;
    NoOccurrenceWithoutChar(ExampleYaml, "description:", 6);
  }

  lemma ExampleShowcase()
    ensures Contains(ExampleYaml, "showcase: true")
  {
    assert ExampleYaml[13..27] == "showcase: true";
    assert OccursAt(ExampleYaml, "showcase: true", 13);
  }

  lemma ExampleOrder()
    ensures FirstCapture(ExampleYaml, "order:", 0, DigitRun) == Some("2")
  {
    ExampleOrderFound();
    ExampleOrderCapture();
  }

  /** The name first occurs at 28: no `d` comes before it. */
  lemma ExampleOrderFound()
    ensures FindFrom(ExampleYaml, "order:", 0) == Some(28)
  {
    var y := ExampleYaml;
    assert y[28..34] == "order:";
    var a, b := y[..30], y[30..];
    assert a == TitleLine + "\n" + ShowcaseLine + "\n" + "or";
    assert "order:"[2] == 'd' && 'd' !in a;
    assert a + b == y;
    NoOccurrenceInPrefix(a, b, "order:", 2);
    assert OccursAt(y, "order:", 28);
    var r := FindFrom(y, "order:", 0);
    assert r.Some? && r.value <= 28;
    assert !OccursAt(a + b, "order:", r.value) || r.value == 28;
  }

  lemma ExampleOrderCapture()
    ensures CaptureAt(ExampleYaml, "order:", 28, DigitRun) == Some("2")
  {
    var y := ExampleYaml;
    assert y[28..34] == "order:";
    assert RunEnd(y, 35, IsSpace) == 35;
    assert RunEnd(y, 34, IsSpace) == 35;
    assert RunEnd(y, 36, IsDigit) == 36;
    assert RunEnd(y, 35, IsDigit) == 36;
    assert y[35..36] == "2";
  }

  lemma ExampleOrderValue()
    ensures DecimalValue("2") == 2
  {
    assert "2"[..0] == "";
  }

  lemma ExampleGoItem()
    ensures StripItem(GoLine) == "Go"
  {
    var l := GoLine;
    assert RunEnd(l, 4, IsSpace) == 4;
    assert RunEnd(l, 3, IsSpace) == 4;
    assert CaptureStart(l, 2) == Some(5);
    assert FirstItemDash(l, 2) == Some(2);
    assert FirstItemDash(l, 1) == Some(2);
    assert FirstItemDash(l, 0) == Some(2);
    assert SpaceRunStart(l, 1) == 0;
    assert SpaceRunStart(l, 2) == 0;
    assert RunEnd(l, 7, IsNotQuote) == 7;
    assert RunEnd(l, 6, IsNotQuote) == 7;
    assert RunEnd(l, 5, IsNotQuote) == 7;
    assert RunEnd(l, 8, IsSpace) == 8;
    assert l[..0] + l[5..7] + l[8..] == "Go";
  }

  lemma ExampleRustItem()
    ensures StripItem(RustLine) == "Rust"
  {
    var l := RustLine;
    assert RunEnd(l, 4, IsSpace) == 4;
    assert RunEnd(l, 3, IsSpace) == 4;
    assert CaptureStart(l, 2) == Some(5);
    assert FirstItemDash(l, 2) == Some(2);
    assert FirstItemDash(l, 1) == Some(2);
    assert FirstItemDash(l, 0) == Some(2);
    assert SpaceRunStart(l, 1) == 0;
    assert SpaceRunStart(l, 2) == 0;
    assert RunEnd(l, 9, IsNotQuote) == 9;
    assert RunEnd(l, 8, IsNotQuote) == 9;
    assert RunEnd(l, 7, IsNotQuote) == 9;
    assert RunEnd(l, 6, IsNotQuote) == 9;
    assert RunEnd(l, 5, IsNotQuote) == 9;
    assert RunEnd(l, 10, IsSpace) == 10;
    assert l[..0] + l[5..9] + l[10..] == "Rust";
  }

  /** The group `[^"]+` also takes spaces, so an unquoted item keeps its trailing spaces. */
  lemma ExampleTrailingSpaces()
    ensures StripItem("  - Go  ") == "Go  "
  {
    var l := "  - Go  ";
    assert RunEnd(l, 4, IsSpace) == 4;
    assert RunEnd(l, 3, IsSpace) == 4;
    assert CaptureStart(l, 2) == Some(4);
    assert FirstItemDash(l, 2) == Some(2);
    assert FirstItemDash(l, 1) == Some(2);
    assert FirstItemDash(l, 0) == Some(2);
    assert SpaceRunStart(l, 1) == 0;
    assert SpaceRunStart(l, 2) == 0;
    assert RunEnd(l, 8, IsNotQuote) == 8;
    assert RunEnd(l, 7, IsNotQuote) == 8;
    assert RunEnd(l, 6, IsNotQuote) == 8;
    assert RunEnd(l, 5, IsNotQuote) == 8;
    assert RunEnd(l, 4, IsNotQuote) == 8;
    assert l[..0] + l[4..8] + l[8..] == "Go  ";
  }

  const ExampleTechnologiesRegion: seq<string> := ["", GoLine, RustLine]

  /** The name first occurs at 37: no `n` comes before it. */
  lemma ExampleTechnologiesFound()
    ensures FindFrom(ExampleYaml, "technologies:", 0) == Some(37)
  {
    var y := ExampleYaml;
    var name := "technologies:";
    ExampleTechnologiesAt();
    var a, b := y[..41], y[41..];
    assert a + b == y;
    assert name[4] == 'n';
    NoOccurrenceInPrefix(a, b, name, 4);
    assert OccursAt(y, name, 37);
    FindFromAt(y, name, 37);
  }

  /** The label sits at 37, and the first `n` of the text is its fifth character. */
  lemma ExampleTechnologiesAt()
    ensures ExampleYaml[37..50] == "technologies:" && 'n' !in ExampleYaml[..41]
  {
    ExampleYamlAroundRegion();
    var p := TitleLine + "\n" + ShowcaseLine + "\n" + OrderLine + "\n";
    var a := p + "tech";
    assert 'n' !in TitleLine && 'n' !in ShowcaseLine && 'n' !in OrderLine && 'n' !in "tech";
    assert 'n' !in a;
    assert |p| == 37 && BeforeRegion == p + TechnologiesLine;
    assert TechnologiesLine == "tech" + "nologies:";
    assert BeforeRegion == a + "nologies:";
    assert ExampleYaml == a + ("nologies:" + Join(ExampleTechnologiesRegion));
    assert ExampleYaml[..41] == a;
    assert ExampleYaml[37..50] == BeforeRegion[37..50] == TechnologiesLine;
  }

  /** The region runs from the name to the end of the block. */
  lemma ExampleTechnologiesListRegion()
    ensures ListRegion(ExampleYaml, "technologies:") == Some(Join(ExampleTechnologiesRegion))
  {
    ExampleTechnologiesFound();
    ExampleRegionEnd();
  }

  const BeforeRegion: string := TitleLine + "\n" + ShowcaseLine + "\n" + OrderLine + "\n" + TechnologiesLine

  lemma ExampleRegionJoin()
    ensures Join(ExampleTechnologiesRegion) == "\n" + GoLine + "\n" + RustLine
  {
    var items := ExampleTechnologiesRegion;
    assert Join(items[2..]) == RustLine;
    assert items[1..][1..] == items[2..];
    assert Join(items[1..]) == GoLine + "\n" + RustLine;
  }

  lemma ExampleYamlAroundRegion()
    ensures ExampleYaml == BeforeRegion + Join(ExampleTechnologiesRegion) && |BeforeRegion| == 50
  {
    ExampleRegionJoin();
  }

  /** No line of the region starts with a word character, so the region reaches the end of the block. */
  lemma ExampleRegionEnd()
    ensures RegionEnd(ExampleYaml, 50) == |ExampleYaml|
    ensures ExampleYaml[50..|ExampleYaml|] == Join(ExampleTechnologiesRegion)
  {
    var items := ExampleTechnologiesRegion;
    forall l | l in items ensures '\n' !in l && (l == [] || !IsWordChar(l[0])) {
    }
    RegionEndOfJoin(BeforeRegion, items);
    ExampleYamlAroundRegion();
  }

  /** Only the two dashed lines are kept. */
  lemma ExampleTechnologiesDashed()
    ensures Filter(ExampleTechnologiesRegion, HasDash) == [GoLine, RustLine]
  {
    var items := ExampleTechnologiesRegion;
    assert !HasDash(items[0]) && HasDash(GoLine) && HasDash(RustLine);
    assert items[1..] == [GoLine, RustLine] && [GoLine, RustLine][1..] == [RustLine];
    assert Filter([RustLine], HasDash) == [RustLine];
  }

  /** The region's lines give the two items. */
  lemma ExampleTechnologiesItems()
    ensures ListItems(Join(ExampleTechnologiesRegion)) == ["Go", "Rust"]
  {
    ExampleRegionLines();
    ExampleTechnologiesDashed();
    TwoItems(Join(ExampleTechnologiesRegion), GoLine, RustLine);
    ExampleGoItem();
    ExampleRustItem();
  }

  lemma ExampleRegionLines()
    ensures Lines(Join(ExampleTechnologiesRegion)) == ExampleTechnologiesRegion
  {
    var items := ExampleTechnologiesRegion;
    assert '\n' !in items[0] && '\n' !in items[1] && '\n' !in items[2];
    LinesOfJoin(items);
  }

  lemma TwoItems(region: string, a: string, b: string)
    requires Filter(Lines(region), HasDash) == [a, b]
    ensures ListItems(region) == [StripItem(a), StripItem(b)]
  {
  }

  lemma ExampleTechnologies()
    ensures ListField(ExampleYaml, "technologies:") == ["Go", "Rust"]
  {
    ExampleTechnologiesListRegion();
    ExampleTechnologiesItems();
  }

  /** No `f` anywhere, so no features. */
  lemma ExampleFeatures()
    ensures ListField(ExampleYaml, "features:") == []
  {
    assert "features:"[0] == 'f' && 'f' !in ExampleYaml;
    NoOccurrenceWithoutChar(ExampleYaml, "features:", 0);
  }

  /** The README example yields title Foo, no description, showcase, order 2, technologies Go and Rust, and no features. */
  lemma ExampleMetadata()
    ensures Extract(ExampleReadme) == Some(ProjectMetadata("Foo", "", true, 2, ["Go", "Rust"], []))
  {
    ExampleBlock();
    ExampleTitle();
    ExampleDescription();
    ExampleShowcase();
    ExampleOrder();
    ExampleOrderValue();
    ExampleTechnologies();
    ExampleFeatures();
  }
}
