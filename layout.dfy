/**
 * The sheet layout that setHeaderByStruct derives from a record's tags: the notice text, the
 * header titles, the omitted columns and the style descriptors of the "notice" and "header"
 * regions. Step is what the body of its field loop does to the layout for one field; Fold is the
 * whole loop. Both return None exactly where the Go code panics.
 */
module Layouts {
  import opened Results
  import opened Strings
  import opened Addressing
  import opened Records

  /** The style every highlighted (red) header column gets, whatever its own `style` tag says. */
  const HighlightStyle := "default-header-red"
  const NoticeRow := 1
  const HeaderRow := 2

  type StyleName = string

  /** A cell of a style range: a column name and a row number. */
  datatype Cell = Cell(col: string, row: int)

  /** A parsed style (style.Parsed): its style names and the cell range it applies to. */
  datatype Parsed = Parsed(names: seq<StyleName>, start: Cell, end: Cell)

  /** The one cell of the notice, A1. */
  const NoticeCell := Cell("A", NoticeRow)

  /**
   * What setHeaderByStruct takes besides the record: the titles to omit, the titles to highlight,
   * and the style-tag parser (style.TagParse(...).Parse(), whose package is not part of this model),
   * seen only through the style names it yields.
   */
  datatype Config = Config(omitColNames: seq<string>, redColNames: seq<string>, parse: string -> seq<StyleName>)

  /** The fields of a sheet that setHeaderByStruct writes. */
  datatype Layout = Layout(notice: string, header: seq<string>, omitCols: set<int>, styleRef: map<string, seq<Parsed>>)

  const EmptyLayout := Layout("", [], {}, map[])

  /** styleRef["header"], with Go's nil for a missing key. */
  function HeaderStyles(l: Layout): seq<Parsed> {
    if HeaderPart in l.styleRef then l.styleRef[HeaderPart] else []
  }

  /** styleRef["notice"], with Go's nil for a missing key. */
  function NoticeStyles(l: Layout): seq<Parsed> {
    if NoticePart in l.styleRef then l.styleRef[NoticePart] else []
  }

  /** len(header) - len(omitCols): the number of header columns that are rendered. */
  function VisibleCount(l: Layout): int {
    |l.header| - |l.omitCols|
  }

  /** The style string a non-omitted header field is given: the highlight style overrides its tag. */
  function EffectiveStyle(f: Field, c: Config): string
    requires HasTitle(f)
  {
    if Title(f) in c.redColNames then HighlightStyle else f.style
  }

  /** A header field that is not omitted and ends up with a non-empty style string. */
  predicate IsStyledHeader(f: Field, c: Config) {
    IsHeaderField(f) && HasTitle(f) && Title(f) !in c.omitColNames && EffectiveStyle(f, c) != ""
  }

  /** One iteration of setHeaderByStruct's field loop; None where the Go code panics. */
  function Step(l: Layout, f: Field, c: Config): Option<Layout> {
    if f.excel == "" then Some(l)
    else
      var params := Split(f.excel, Sep);
      if params[0] == NoticePart then
        var l' := l.(notice := AsString(f.value));
        if f.style == "" then Some(l')
        else Some(l'.(styleRef := l.styleRef[NoticePart := [Parsed(c.parse(f.style), NoticeCell, NoticeCell)]]))
      else if params[0] == HeaderPart then
        if |params| < 2 then None  // params[1] out of range
        else
          var title := params[1];
          var header := l.header + [title];
          if title in c.omitColNames then
            Some(l.(header := header, omitCols := l.omitCols + {|header| - 1}))
          else
            var styleString := if title in c.redColNames then HighlightStyle else f.style;
            if styleString == "" then Some(l.(header := header))
            else
              var colName := ColumnNumberToName(|header| - |l.omitCols|);
              if colName.Err? then None  // panic(err)
              else
                var names := c.parse(styleString);
                if HeaderPart in l.styleRef && |l.styleRef[HeaderPart]| == 0 then None  // pp[len(pp)-1] out of range
                else if HeaderPart !in l.styleRef || names != l.styleRef[HeaderPart][|l.styleRef[HeaderPart]| - 1].names then
                  var cell := Cell(colName.value, HeaderRow);
                  Some(l.(header := header, styleRef := l.styleRef[HeaderPart := HeaderStyles(l) + [Parsed(names, cell, cell)]]))
                else
                  var pp := l.styleRef[HeaderPart];
                  var last := pp[|pp| - 1];
                  Some(l.(header := header, styleRef := l.styleRef[HeaderPart := pp[..|pp| - 1] + [last.(end := last.end.(col := colName.value))]]))
      else Some(l)
  }

  /** setHeaderByStruct's loop over all fields, in order; None when some iteration panics. */
  function Fold(l: Layout, fs: seq<Field>, c: Config): Option<Layout>
    decreases |fs|
  {
    if fs == [] then Some(l)
    else
      match Fold(l, fs[..|fs| - 1], c)
      case None => None
      case Some(m) => Step(m, fs[|fs| - 1], c)
  }

  /**
   * Header descriptors all sit on the header row, cover columns start..end within the rendered
   * columns, and follow each other left to right without overlapping.
   */
  ghost predicate HeaderStylesPlaced(ds: seq<Parsed>, count: int) {
    && (forall i :: 0 <= i < |ds| ==>
          && ds[i].start.row == HeaderRow && ds[i].end.row == HeaderRow
          && 1 <= ColumnNumber(ds[i].start.col) <= ColumnNumber(ds[i].end.col) <= count)
    && (forall i, j :: 0 <= i < j < |ds| ==> ColumnNumber(ds[i].end.col) < ColumnNumber(ds[j].start.col))
  }

  /** The invariant setHeaderByStruct keeps. */
  ghost predicate WellFormed(l: Layout) {
    && (forall k :: k in l.omitCols ==> 0 <= k < |l.header|)
    && |l.omitCols| <= |l.header|
    && l.styleRef.Keys <= {NoticePart, HeaderPart}
    && (NoticePart in l.styleRef ==>
          |l.styleRef[NoticePart]| == 1
          && l.styleRef[NoticePart][0].start == NoticeCell && l.styleRef[NoticePart][0].end == NoticeCell)
    && (HeaderPart in l.styleRef ==> l.styleRef[HeaderPart] != [])
    && HeaderStylesPlaced(HeaderStyles(l), VisibleCount(l))
  }

  lemma EmptyLayoutWellFormed()
    ensures WellFormed(EmptyLayout)
  {
  }

  // ---------------------------------------------------------------------------------------------
  // One field
  // ---------------------------------------------------------------------------------------------

  /**
   * Under the invariant, the loop body panics only for a header tag without a `|<title>` part,
   * or for a styled column past the last column excelize can name.
   */
  lemma StepPanics(l: Layout, f: Field, c: Config)
    requires WellFormed(l)
    ensures Step(l, f, c).None? <==>
      IsHeaderField(f) && (!HasTitle(f) || (IsStyledHeader(f, c) && VisibleCount(l) + 1 > MaxColumns))
  {
  }

  /** A header field appends exactly its title, omitted or not; any other field leaves the header alone. */
  lemma StepHeader(l: Layout, f: Field, c: Config)
    requires Step(l, f, c).Some?
    ensures IsHeaderField(f) ==> HasTitle(f)
    ensures Step(l, f, c).value.header == l.header + (if IsHeaderField(f) then [Title(f)] else [])
  {
  }

  /**
   * An omitted title records its index len(header)-1 in omitCols and gets no style descriptor;
   * nothing else changes omitCols.
   */
  lemma StepOmit(l: Layout, f: Field, c: Config)
    requires Step(l, f, c).Some?
    ensures var r := Step(l, f, c).value;
      if IsHeaderField(f) && Title(f) in c.omitColNames then
        r.omitCols == l.omitCols + {|r.header| - 1} && r.styleRef == l.styleRef
      else r.omitCols == l.omitCols
  {
  }

  /**
   * A notice field sets the notice to its value as a string, styled or not; a styled one replaces
   * styleRef["notice"] by its single descriptor at A1:A1.
   */
  lemma StepNotice(l: Layout, f: Field, c: Config)
    requires Step(l, f, c).Some?
    ensures var r := Step(l, f, c).value;
      && r.notice == (if IsNoticeField(f) then AsString(f.value) else l.notice)
      && NoticeStyles(r) == (if IsNoticeField(f) && f.style != ""
                             then [Parsed(c.parse(f.style), NoticeCell, NoticeCell)] else NoticeStyles(l))
  {
  }

  /** Only a styled header (not omitted, non-empty effective style) touches styleRef["header"]. */
  lemma StepHeaderStyleUnchanged(l: Layout, f: Field, c: Config)
    requires Step(l, f, c).Some? && !IsStyledHeader(f, c)
    ensures HeaderStyles(Step(l, f, c).value) == HeaderStyles(l)
  {
  }

  /**
   * A styled header whose style names differ from those of the last header descriptor (or comes
   * first) appends one descriptor that starts and ends at its column on row 2; its column is the
   * one counted among rendered headers, len(header)-len(omitCols).
   */
  lemma StepHeaderStyleAppend(l: Layout, f: Field, c: Config)
    requires Step(l, f, c).Some? && IsStyledHeader(f, c)
    requires var ds := HeaderStyles(l); ds == [] || ds[|ds| - 1].names != c.parse(EffectiveStyle(f, c))
    ensures var r := Step(l, f, c).value;
      && 1 <= VisibleCount(r) <= MaxColumns
      && VisibleCount(r) == VisibleCount(l) + 1
      && var col := ColumnName(VisibleCount(r));
      && HeaderPart in r.styleRef
      && HeaderStyles(r) == HeaderStyles(l) + [Parsed(c.parse(EffectiveStyle(f, c)), Cell(col, HeaderRow), Cell(col, HeaderRow))]
  {
  }

  /**
   * A styled header whose style names equal those of the last header descriptor adds no
   * descriptor: only the last one's end column moves to its column; its start cell stays.
   */
  lemma StepHeaderStyleMerge(l: Layout, f: Field, c: Config)
    requires Step(l, f, c).Some? && IsStyledHeader(f, c)
    requires var ds := HeaderStyles(l); ds != [] && ds[|ds| - 1].names == c.parse(EffectiveStyle(f, c))
    ensures var r := Step(l, f, c).value;
      var ds := HeaderStyles(l);
      var last := ds[|ds| - 1];
      && 1 <= VisibleCount(r) <= MaxColumns
      && VisibleCount(r) == VisibleCount(l) + 1
      && HeaderPart in r.styleRef
      && HeaderStyles(r) == ds[..|ds| - 1] + [last.(end := Cell(ColumnName(VisibleCount(r)), last.end.row))]
  {
  }

  /** A highlighted title's column is styled with the highlight style, even when its own style tag is empty. */
  lemma StepHighlight(l: Layout, f: Field, c: Config)
    requires Step(l, f, c).Some?
    requires IsHeaderField(f) && HasTitle(f) && Title(f) in c.redColNames && Title(f) !in c.omitColNames
    ensures var ds := HeaderStyles(Step(l, f, c).value);
      ds != [] && ds[|ds| - 1].names == c.parse(HighlightStyle)
      && ds[|ds| - 1].end.col == ColumnName(VisibleCount(Step(l, f, c).value))
  {
    var ds := HeaderStyles(l);
    if ds == [] || ds[|ds| - 1].names != c.parse(EffectiveStyle(f, c)) {
      StepHeaderStyleAppend(l, f, c);
    } else {
      StepHeaderStyleMerge(l, f, c);
    }
  }

  /** A non-highlighted header with an empty style tag adds no descriptor. */
  lemma StepUnstyled(l: Layout, f: Field, c: Config)
    requires Step(l, f, c).Some?
    requires IsHeaderField(f) && HasTitle(f) && Title(f) !in c.redColNames && f.style == ""
    ensures HeaderStyles(Step(l, f, c).value) == HeaderStyles(l)
  {
    StepHeaderStyleUnchanged(l, f, c);
  }

  /** styleRef only ever gains the "notice" key (from a styled notice) and the "header" key (from a styled header). */
  lemma StepStyleKeys(l: Layout, f: Field, c: Config)
    requires Step(l, f, c).Some?
    ensures Step(l, f, c).value.styleRef.Keys ==
      l.styleRef.Keys + (if IsNoticeField(f) && f.style != "" then {NoticePart} else {})
                      + (if IsStyledHeader(f, c) then {HeaderPart} else {})
  {
  }

  lemma PlacedWithMoreColumns(ds: seq<Parsed>, count: int, count': int)
    requires HeaderStylesPlaced(ds, count) && count <= count'
    ensures HeaderStylesPlaced(ds, count')
  {
  }

  /** A descriptor appended at the next column keeps the descriptors in place. */
  lemma PlacedAppend(ds: seq<Parsed>, count: int, names: seq<StyleName>)
    requires count >= 0 && HeaderStylesPlaced(ds, count)
    ensures var cell := Cell(ColumnName(count + 1), HeaderRow);
      HeaderStylesPlaced(ds + [Parsed(names, cell, cell)], count + 1)
  {
    ColumnNumberOfName(count + 1);
  }

  /** Widening the last descriptor to the next column keeps the descriptors in place. */
  lemma PlacedWiden(ds: seq<Parsed>, count: int)
    requires count >= 0 && ds != [] && HeaderStylesPlaced(ds, count)
    ensures var last := ds[|ds| - 1];
      HeaderStylesPlaced(ds[..|ds| - 1] + [last.(end := Cell(ColumnName(count + 1), last.end.row))], count + 1)
  {
    ColumnNumberOfName(count + 1);
    var last := ds[|ds| - 1];
    var ds' := ds[..|ds| - 1] + [last.(end := Cell(ColumnName(count + 1), last.end.row))];
    forall i, j | 0 <= i < j < |ds'|
      ensures ColumnNumber(ds'[i].end.col) < ColumnNumber(ds'[j].start.col)
    {
      assert ds'[i].end == ds[i].end && ds'[j].start == ds[j].start;
    }
  }

  /** What one field does to a layout, as the Step lemmas above state it, with the result r named. */
  ghost predicate Advances(l: Layout, r: Layout, f: Field, c: Config) {
    && (IsHeaderField(f) ==> HasTitle(f))
    && r.header == l.header + (if IsHeaderField(f) then [Title(f)] else [])
    && r.omitCols == l.omitCols + (if IsHeaderField(f) && Title(f) in c.omitColNames then {|l.header|} else {})
    && r.styleRef.Keys == l.styleRef.Keys + (if IsNoticeField(f) && f.style != "" then {NoticePart} else {})
                                          + (if IsStyledHeader(f, c) then {HeaderPart} else {})
    && NoticeStyles(r) == (if IsNoticeField(f) && f.style != ""
                           then [Parsed(c.parse(f.style), NoticeCell, NoticeCell)] else NoticeStyles(l))
    && (!IsStyledHeader(f, c) ==> HeaderStyles(r) == HeaderStyles(l))
    && (IsStyledHeader(f, c) ==> VisibleCount(l) + 1 >= 1)
    && (IsStyledHeader(f, c) ==>
          var ds := HeaderStyles(l);
          var names := c.parse(EffectiveStyle(f, c));
          var col := ColumnName(VisibleCount(l) + 1);
          if ds == [] || ds[|ds| - 1].names != names then
            HeaderStyles(r) == ds + [Parsed(names, Cell(col, HeaderRow), Cell(col, HeaderRow))]
          else
            HeaderStyles(r) == ds[..|ds| - 1] + [ds[|ds| - 1].(end := Cell(col, ds[|ds| - 1].end.row))])
  }

  lemma StepAdvancesUnstyled(l: Layout, f: Field, c: Config)
    requires Step(l, f, c).Some? && !IsStyledHeader(f, c)
    ensures Advances(l, Step(l, f, c).value, f, c)
  {
    StepHeader(l, f, c);
    StepOmit(l, f, c);
    StepStyleKeys(l, f, c);
    StepNotice(l, f, c);
    StepHeaderStyleUnchanged(l, f, c);
  }

  /** The appending case of Advances, from its facts alone (without unfolding Step). */
  lemma AdvancesByAppend(l: Layout, r: Layout, f: Field, c: Config)
    requires IsStyledHeader(f, c)
    requires var ds := HeaderStyles(l); ds == [] || ds[|ds| - 1].names != c.parse(EffectiveStyle(f, c))
    requires r.header == l.header + [Title(f)] && r.omitCols == l.omitCols
    requires r.styleRef.Keys == l.styleRef.Keys + (if IsNoticeField(f) && f.style != "" then {NoticePart} else {}) + {HeaderPart}
    requires NoticeStyles(r) == (if IsNoticeField(f) && f.style != ""
                                 then [Parsed(c.parse(f.style), NoticeCell, NoticeCell)] else NoticeStyles(l))
    requires 1 <= VisibleCount(r) == VisibleCount(l) + 1
    requires var col := ColumnName(VisibleCount(r));
      HeaderStyles(r) == HeaderStyles(l) + [Parsed(c.parse(EffectiveStyle(f, c)), Cell(col, HeaderRow), Cell(col, HeaderRow))]
    ensures Advances(l, r, f, c)
  {
    assert ColumnName(VisibleCount(l) + 1) == ColumnName(VisibleCount(r));
  }

  lemma StepAdvancesAppend(l: Layout, f: Field, c: Config)
    requires Step(l, f, c).Some? && IsStyledHeader(f, c)
    requires var ds := HeaderStyles(l); ds == [] || ds[|ds| - 1].names != c.parse(EffectiveStyle(f, c))
    ensures Advances(l, Step(l, f, c).value, f, c)
  {
    var r := Step(l, f, c).value;
    StepHeader(l, f, c);
    StepOmit(l, f, c);
    StepStyleKeys(l, f, c);
    StepNotice(l, f, c);
    StepHeaderStyleAppend(l, f, c);
    AdvancesByAppend(l, r, f, c);
  }

  /** The merging case of Advances, from its facts alone (without unfolding Step). */
  lemma AdvancesByMerge(l: Layout, r: Layout, f: Field, c: Config)
    requires IsStyledHeader(f, c)
    requires var ds := HeaderStyles(l); ds != [] && ds[|ds| - 1].names == c.parse(EffectiveStyle(f, c))
    requires r.header == l.header + [Title(f)] && r.omitCols == l.omitCols
    requires r.styleRef.Keys == l.styleRef.Keys + (if IsNoticeField(f) && f.style != "" then {NoticePart} else {}) + {HeaderPart}
    requires NoticeStyles(r) == (if IsNoticeField(f) && f.style != ""
                                 then [Parsed(c.parse(f.style), NoticeCell, NoticeCell)] else NoticeStyles(l))
    requires 1 <= VisibleCount(r) == VisibleCount(l) + 1
    requires var ds := HeaderStyles(l); var last := ds[|ds| - 1];
      HeaderStyles(r) == ds[..|ds| - 1] + [last.(end := Cell(ColumnName(VisibleCount(r)), last.end.row))]
    ensures Advances(l, r, f, c)
  {
  }

  lemma StepAdvancesMerge(l: Layout, f: Field, c: Config)
    requires Step(l, f, c).Some? && IsStyledHeader(f, c)
    requires var ds := HeaderStyles(l); ds != [] && ds[|ds| - 1].names == c.parse(EffectiveStyle(f, c))
    ensures Advances(l, Step(l, f, c).value, f, c)
  {
    var r := Step(l, f, c).value;
    StepHeader(l, f, c);
    StepOmit(l, f, c);
    StepStyleKeys(l, f, c);
    StepNotice(l, f, c);
    StepHeaderStyleMerge(l, f, c);
    AdvancesByMerge(l, r, f, c);
  }

  lemma StepAdvances(l: Layout, f: Field, c: Config)
    requires Step(l, f, c).Some?
    ensures Advances(l, Step(l, f, c).value, f, c)
  {
    var ds := HeaderStyles(l);
    if !IsStyledHeader(f, c) {
      StepAdvancesUnstyled(l, f, c);
    } else if ds == [] || ds[|ds| - 1].names != c.parse(EffectiveStyle(f, c)) {
      StepAdvancesAppend(l, f, c);
    } else {
      StepAdvancesMerge(l, f, c);
    }
  }

  /** Only a header that is not omitted adds a rendered column. */
  lemma AdvancesOmits(l: Layout, r: Layout, f: Field, c: Config)
    requires WellFormed(l) && Advances(l, r, f, c)
    ensures forall k :: k in r.omitCols ==> 0 <= k < |r.header|
    ensures |r.omitCols| <= |r.header|
    ensures VisibleCount(r) == VisibleCount(l) + (if IsHeaderField(f) && Title(f) !in c.omitColNames then 1 else 0)
  {
    if IsHeaderField(f) && Title(f) in c.omitColNames {
      assert |l.header| !in l.omitCols;
      assert |r.omitCols| == |l.omitCols| + 1;
    }
  }

  lemma AdvancesPlacedUnstyled(l: Layout, r: Layout, f: Field, c: Config)
    requires WellFormed(l) && Advances(l, r, f, c) && !IsStyledHeader(f, c)
    requires VisibleCount(l) <= VisibleCount(r)
    ensures HeaderStylesPlaced(HeaderStyles(r), VisibleCount(r))
  {
    PlacedWithMoreColumns(HeaderStyles(l), VisibleCount(l), VisibleCount(r));
  }

  /** A styled header column, appended or merged, keeps the descriptors in place. */
  lemma PlacedStyled(ds: seq<Parsed>, rs: seq<Parsed>, n: int, names: seq<StyleName>)
    requires n >= 0 && HeaderStylesPlaced(ds, n)
    requires var col := ColumnName(n + 1);
      if ds == [] || ds[|ds| - 1].names != names then
        rs == ds + [Parsed(names, Cell(col, HeaderRow), Cell(col, HeaderRow))]
      else
        rs == ds[..|ds| - 1] + [ds[|ds| - 1].(end := Cell(col, ds[|ds| - 1].end.row))]
    ensures HeaderStylesPlaced(rs, n + 1)
  {
    if ds == [] || ds[|ds| - 1].names != names {
      PlacedAppend(ds, n, names);
    } else {
      PlacedWiden(ds, n);
    }
  }

  lemma AdvancesPlacedStyled(l: Layout, r: Layout, f: Field, c: Config)
    requires Advances(l, r, f, c) && IsStyledHeader(f, c)
    requires VisibleCount(l) >= 0 && HeaderStylesPlaced(HeaderStyles(l), VisibleCount(l))
    ensures HeaderStylesPlaced(HeaderStyles(r), VisibleCount(l) + 1)
  {
    PlacedStyled(HeaderStyles(l), HeaderStyles(r), VisibleCount(l), c.parse(EffectiveStyle(f, c)));
  }

  lemma AdvancesWellFormed(l: Layout, r: Layout, f: Field, c: Config)
    requires WellFormed(l) && Advances(l, r, f, c)
    ensures WellFormed(r)
  {
    AdvancesOmits(l, r, f, c);
    if NoticePart in r.styleRef {
      assert r.styleRef[NoticePart] == NoticeStyles(r);
      if !(IsNoticeField(f) && f.style != "") {
        assert NoticePart in l.styleRef;
      }
    }
    if IsStyledHeader(f, c) {
      AdvancesPlacedStyled(l, r, f, c);
    } else {
      AdvancesPlacedUnstyled(l, r, f, c);
    }
  }

  /** One field keeps the invariant. */
  lemma StepWellFormed(l: Layout, f: Field, c: Config)
    requires WellFormed(l) && Step(l, f, c).Some?
    ensures WellFormed(Step(l, f, c).value)
  {
    StepAdvances(l, f, c);
    AdvancesWellFormed(l, Step(l, f, c).value, f, c);
  }

  // ---------------------------------------------------------------------------------------------
  // The whole field loop
  // ---------------------------------------------------------------------------------------------

  /** A notice field with a style tag. */
  predicate StyledNotice(f: Field) {
    IsNoticeField(f) && f.style != ""
  }

  /** No field after index i is a notice field (a styled one, when styled holds). */
  predicate NoneAfter(fs: seq<Field>, i: nat, styled: bool) {
    forall j :: i < j < |fs| ==> !(if styled then StyledNotice(fs[j]) else IsNoticeField(fs[j]))
  }

  /** The last notice field of a record, if any. */
  function LastNotice(fs: seq<Field>): (r: Option<Field>)
    ensures r.Some? ==> r.value in fs && IsNoticeField(r.value)
    decreases |fs|
  {
    if fs == [] then None
    else if IsNoticeField(fs[|fs| - 1]) then Some(fs[|fs| - 1])
    else LastNotice(fs[..|fs| - 1])
  }

  /** The last notice field of a record that has a style tag, if any. */
  function LastStyledNotice(fs: seq<Field>): (r: Option<Field>)
    ensures r.Some? ==> r.value in fs && IsNoticeField(r.value) && r.value.style != ""
    decreases |fs|
  {
    if fs == [] then None
    else if IsNoticeField(fs[|fs| - 1]) && fs[|fs| - 1].style != "" then Some(fs[|fs| - 1])
    else LastStyledNotice(fs[..|fs| - 1])
  }

  /** LastNotice is None exactly when no field is a notice, and otherwise no notice field follows it. */
  lemma {:induction false} LastNoticeIsLast(fs: seq<Field>)
    ensures LastNotice(fs).None? <==> forall i :: 0 <= i < |fs| ==> !IsNoticeField(fs[i])
    ensures LastNotice(fs).Some? ==>
      exists i :: 0 <= i < |fs| && fs[i] == LastNotice(fs).value && NoneAfter(fs, i, false)
    decreases |fs|
  {
    if fs != [] {
      var n := |fs| - 1;
      var init := fs[..n];
      if IsNoticeField(fs[n]) {
        assert NoneAfter(fs, n, false);
      } else {
        LastNoticeIsLast(init);
        assert forall i :: 0 <= i < n ==> init[i] == fs[i];
        if LastNotice(init).Some? {
          var i :| 0 <= i < n && init[i] == LastNotice(init).value && NoneAfter(init, i, false);
          assert NoneAfter(fs, i, false);
        }
      }
    }
  }

  /** LastStyledNotice is None exactly when no notice field has a style, and otherwise no styled notice field follows it. */
  lemma {:induction false} LastStyledNoticeIsLast(fs: seq<Field>)
    ensures LastStyledNotice(fs).None? <==> forall i :: 0 <= i < |fs| ==> !StyledNotice(fs[i])
    ensures LastStyledNotice(fs).Some? ==>
      exists i :: 0 <= i < |fs| && fs[i] == LastStyledNotice(fs).value && NoneAfter(fs, i, true)
    decreases |fs|
  {
    if fs != [] {
      var n := |fs| - 1;
      var init := fs[..n];
      if StyledNotice(fs[n]) {
        assert NoneAfter(fs, n, true);
      } else {
        LastStyledNoticeIsLast(init);
        assert forall i :: 0 <= i < n ==> init[i] == fs[i];
        if LastStyledNotice(init).Some? {
          var i :| 0 <= i < n && init[i] == LastStyledNotice(init).value && NoneAfter(init, i, true);
          assert NoneAfter(fs, i, true);
        }
      }
    }
  }

  /** When the whole loop runs without panicking, so does every prefix of it. */
  lemma {:induction false} FoldPrefix(l: Layout, fs: seq<Field>, k: nat, c: Config)
    requires Fold(l, fs, c).Some? && k <= |fs|
    ensures Fold(l, fs[..k], c).Some?
    decreases |fs|
  {
    if k < |fs| {
      FoldPrefix(l, fs[..|fs| - 1], k, c);
      assert fs[..|fs| - 1][..k] == fs[..k];
    } else {
      assert fs[..k] == fs;
    }
  }

  /** The header is the old header followed by the record's titles, in field order, omitted titles included. */
  lemma {:induction false} FoldHeader(l: Layout, fs: seq<Field>, c: Config)
    requires Fold(l, fs, c).Some?
    ensures Titled(fs)
    ensures Fold(l, fs, c).value.header == l.header + Titles(fs)
    decreases |fs|
  {
    if fs != [] {
      var init := fs[..|fs| - 1];
      FoldHeader(l, init, c);
      StepHeader(Fold(l, init, c).value, fs[|fs| - 1], c);
      TitledSnoc(fs);
    }
  }

  /** omitCols gains exactly the positions of the record's titles that are to be omitted. */
  lemma {:induction false} FoldOmitted(l: Layout, fs: seq<Field>, c: Config)
    requires Fold(l, fs, c).Some?
    ensures var r := Fold(l, fs, c).value;
      |l.header| <= |r.header| &&
      forall k :: k in r.omitCols <==>
        k in l.omitCols || (|l.header| <= k < |r.header| && r.header[k] in c.omitColNames)
    decreases |fs|
  {
    if fs != [] {
      var init := fs[..|fs| - 1];
      var m := Fold(l, init, c).value;
      var r := Fold(l, fs, c).value;
      FoldOmitted(l, init, c);
      StepHeader(m, fs[|fs| - 1], c);
      StepOmit(m, fs[|fs| - 1], c);
      assert forall k :: 0 <= k < |m.header| ==> r.header[k] == m.header[k];
    }
  }

  /** The last notice field wins the notice text, and the last styled one wins styleRef["notice"]. */
  lemma {:induction false} FoldNotice(l: Layout, fs: seq<Field>, c: Config)
    requires Fold(l, fs, c).Some?
    ensures var r := Fold(l, fs, c).value;
      && r.notice == (match LastNotice(fs) case Some(f) => AsString(f.value) case None => l.notice)
      && NoticeStyles(r) == (match LastStyledNotice(fs)
                             case Some(f) => [Parsed(c.parse(f.style), NoticeCell, NoticeCell)]
                             case None => NoticeStyles(l))
    decreases |fs|
  {
    if fs != [] {
      var init := fs[..|fs| - 1];
      FoldNotice(l, init, c);
      StepNotice(Fold(l, init, c).value, fs[|fs| - 1], c);
    }
  }

  /** The whole loop keeps the invariant: omitted indices are header indices, descriptors stay in place. */
  lemma {:induction false} FoldWellFormed(l: Layout, fs: seq<Field>, c: Config)
    requires WellFormed(l) && Fold(l, fs, c).Some?
    ensures WellFormed(Fold(l, fs, c).value)
    decreases |fs|
  {
    if fs != [] {
      var init := fs[..|fs| - 1];
      FoldWellFormed(l, init, c);
      StepWellFormed(Fold(l, init, c).value, fs[|fs| - 1], c);
    }
  }

  /** ds' extends ds, except that the last descriptor of ds may have its end moved. */
  ghost predicate KeepsEarlier(ds: seq<Parsed>, ds': seq<Parsed>) {
    && |ds| <= |ds'|
    && (ds != [] ==> ds'[..|ds| - 1] == ds[..|ds| - 1] && ds'[|ds| - 1].start == ds[|ds| - 1].start)
  }

  lemma KeepsEarlierTransitive(a: seq<Parsed>, b: seq<Parsed>, c: seq<Parsed>)
    requires KeepsEarlier(a, b) && KeepsEarlier(b, c)
    ensures KeepsEarlier(a, c)
  {
    if a != [] && |a| < |b| {
      assert c[..|a| - 1] == c[..|b| - 1][..|a| - 1];
      assert b[..|a| - 1] == b[..|b| - 1][..|a| - 1];
      assert c[|a| - 1] == c[..|b| - 1][|a| - 1];
      assert b[|a| - 1] == b[..|b| - 1][|a| - 1];
    }
  }

  /** One field adds at most one header descriptor, never removes one, and touches only the last one. */
  lemma StepHeaderStylesGrow(l: Layout, f: Field, c: Config)
    requires Step(l, f, c).Some?
    ensures var ds := HeaderStyles(l);
      var ds' := HeaderStyles(Step(l, f, c).value);
      KeepsEarlier(ds, ds') && |ds'| <= |ds| + (if IsHeaderField(f) then 1 else 0)
  {
    var ds := HeaderStyles(l);
    if !IsStyledHeader(f, c) {
      StepHeaderStyleUnchanged(l, f, c);
    } else if ds == [] || ds[|ds| - 1].names != c.parse(EffectiveStyle(f, c)) {
      StepHeaderStyleAppend(l, f, c);
      assert HeaderStyles(Step(l, f, c).value)[..|ds|] == ds;
    } else {
      StepHeaderStyleMerge(l, f, c);
    }
  }

  /**
   * Over the whole loop the header descriptors grow by at most one per header field; descriptors
   * before the old last one are left as they were, and the old last one keeps its start cell.
   */
  lemma {:induction false} FoldHeaderStyles(l: Layout, fs: seq<Field>, c: Config)
    requires Fold(l, fs, c).Some?
    ensures Titled(fs)
    ensures var ds := HeaderStyles(l);
      var ds' := HeaderStyles(Fold(l, fs, c).value);
      KeepsEarlier(ds, ds') && |ds'| <= |ds| + |Titles(fs)|
    decreases |fs|
  {
    FoldHeader(l, fs, c);
    if fs != [] {
      var init := fs[..|fs| - 1];
      var m := Fold(l, init, c).value;
      TitledSnoc(fs);
      FoldHeaderStyles(l, init, c);
      StepHeaderStylesGrow(m, fs[|fs| - 1], c);
      KeepsEarlierTransitive(HeaderStyles(l), HeaderStyles(m), HeaderStyles(Fold(l, fs, c).value));
    }
  }

  /**
   * Under the invariant, the loop does not panic when every header tag has a title and the rendered
   * columns stay within the 16384 excelize can name.
   */
  lemma {:induction false} FoldDefined(l: Layout, fs: seq<Field>, c: Config)
    requires WellFormed(l) && Titled(fs) && VisibleCount(l) + |Titles(fs)| <= MaxColumns
    ensures Fold(l, fs, c).Some?
    ensures VisibleCount(Fold(l, fs, c).value) <= VisibleCount(l) + |Titles(fs)|
    decreases |fs|
  {
    if fs != [] {
      var init := fs[..|fs| - 1];
      var last := fs[|fs| - 1];
      TitledSnoc(fs);
      FoldDefined(l, init, c);
      var m := Fold(l, init, c).value;
      FoldWellFormed(l, init, c);
      StepPanics(m, last, c);
      StepAdvances(m, last, c);
      AdvancesOmits(m, Step(m, last, c).value, last, c);
    }
  }

  /** Fold over fs + [f] is Step after Fold over fs. */
  lemma FoldLast(l: Layout, fs: seq<Field>, f: Field, c: Config)
    ensures Fold(l, fs + [f], c) == if Fold(l, fs, c).None? then None else Step(Fold(l, fs, c).value, f, c)
  {
    assert (fs + [f])[..|fs|] == fs;
  }

  /** A header field that is neither omitted nor highlighted. */
  predicate PlainHeader(f: Field, c: Config) {
    IsHeaderField(f) && HasTitle(f) && Title(f) !in c.omitColNames && Title(f) !in c.redColNames
  }

  /** A plain header with an empty style tag renders a column and adds no descriptor. */
  lemma StepPlainUnstyled(l: Layout, f: Field, c: Config)
    requires WellFormed(l) && PlainHeader(f, c) && f.style == ""
    ensures Step(l, f, c).Some?
    ensures var r := Step(l, f, c).value;
      WellFormed(r) && HeaderStyles(r) == HeaderStyles(l) && VisibleCount(r) == VisibleCount(l) + 1
  {
    StepPanics(l, f, c);
    StepAdvances(l, f, c);
    AdvancesOmits(l, Step(l, f, c).value, f, c);
    AdvancesWellFormed(l, Step(l, f, c).value, f, c);
  }

  /** A plain styled header within the column limit renders a column as Advances states it. */
  lemma StepPlainStyled(l: Layout, f: Field, c: Config)
    requires WellFormed(l) && PlainHeader(f, c) && f.style != "" && VisibleCount(l) < MaxColumns
    ensures Step(l, f, c).Some?
    ensures var r := Step(l, f, c).value;
      WellFormed(r) && Advances(l, r, f, c) && IsStyledHeader(f, c) && EffectiveStyle(f, c) == f.style
      && VisibleCount(r) == VisibleCount(l) + 1
  {
    StepPanics(l, f, c);
    StepAdvances(l, f, c);
    AdvancesOmits(l, Step(l, f, c).value, f, c);
    AdvancesWellFormed(l, Step(l, f, c).value, f, c);
  }

  /** The first plain styled header opens a descriptor at column A. */
  lemma OpenAtA(f: Field, c: Config)
    requires PlainHeader(f, c) && f.style != ""
    ensures Step(EmptyLayout, f, c).Some?
    ensures var r := Step(EmptyLayout, f, c).value;
      && WellFormed(r) && VisibleCount(r) == 1
      && HeaderStyles(r) == [Parsed(c.parse(f.style), Cell("A", HeaderRow), Cell("A", HeaderRow))]
  {
    EmptyLayoutWellFormed();
    StepPlainStyled(EmptyLayout, f, c);
    assert ColumnName(1) == "A";
  }

  /** A plain header styled like a single descriptor at A widens it to the third column, C. */
  lemma WidenToC(l: Layout, f: Field, c: Config)
    requires WellFormed(l) && VisibleCount(l) == 2 && PlainHeader(f, c) && f.style != ""
    requires HeaderStyles(l) == [Parsed(c.parse(f.style), Cell("A", HeaderRow), Cell("A", HeaderRow))]
    ensures Step(l, f, c).Some?
    ensures HeaderStyles(Step(l, f, c).value) == [Parsed(c.parse(f.style), Cell("A", HeaderRow), Cell("C", HeaderRow))]
  {
    StepPanics(l, f, c);
    StepHeaderStyleMerge(l, f, c);
    assert HeaderStyles(l)[..0] == [];
    assert ColumnName(3) == "C";
  }

  /**
   * Merging compares with the last descriptor, not with the previous column: two equally styled
   * headers with an unstyled one between them share one descriptor that spans all three columns.
   */
  lemma MergeSpansUnstyledColumn(f1: Field, f2: Field, f3: Field, c: Config)
    requires PlainHeader(f1, c) && PlainHeader(f2, c) && PlainHeader(f3, c)
    requires f1.style != "" && f2.style == "" && f3.style == f1.style
    ensures Fold(EmptyLayout, [f1, f2, f3], c).Some?
    ensures HeaderStyles(Fold(EmptyLayout, [f1, f2, f3], c).value) ==
      [Parsed(c.parse(f1.style), Cell("A", HeaderRow), Cell("C", HeaderRow))]
  {
    OpenAtA(f1, c);
    var l1 := Step(EmptyLayout, f1, c).value;
    StepPlainUnstyled(l1, f2, c);
    var l2 := Step(l1, f2, c).value;
    WidenToC(l2, f3, c);
    FoldLast(EmptyLayout, [], f1, c);
    FoldLast(EmptyLayout, [f1], f2, c);
    FoldLast(EmptyLayout, [f1, f2], f3, c);
    assert [] + [f1] == [f1] && [f1] + [f2] == [f1, f2] && [f1, f2] + [f3] == [f1, f2, f3];
  }
}
