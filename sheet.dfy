/**
 * The `sheet` object: a sheet name, the layout setHeaderByStruct derives (notice, header,
 * omitted columns, style descriptors), the data rows, the dropdown option sets and the write cursor.
 */
module Sheets {
  import opened Results
  import opened Strings
  import opened Addressing
  import opened Records
  import opened Layouts

  /** One option set handed to the dropdown builder: the resolved column and the options value. */
  datatype OptionSet = OptionSet(column: string, options: Value)

  /** The dropdown builder (pullDown), seen only as the option sets merged into it, in order. */
  datatype PullDown = PullDown(sets: seq<OptionSet>)

  /** newPullDown().addOptions(column, options) installed as the first set, or merged into the existing builder. */
  function MergeInto(pd: Option<PullDown>, s: OptionSet): (r: PullDown)
    ensures |r.sets| >= 1 && r.sets[|r.sets| - 1] == s
    ensures pd.Some? ==> r.sets[..|r.sets| - 1] == pd.value.sets
    ensures pd.None? ==> r.sets == [s]
  {
    match pd
    case None => PullDown([s])
    case Some(p) => PullDown(p.sets + [s])
  }

  /** The elements of a slice input all become rows: each one is a struct or a slice. */
  predicate RowsOk(es: seq<Element>) {
    forall i :: 0 <= i < |es| ==> !es[i].Scalar?
  }

  /** One row per element, in order. */
  function Rows(es: seq<Element>): (r: seq<seq<Value>>)
    requires RowsOk(es)
    ensures |r| == |es|
    ensures forall i :: 0 <= i < |es| ==> Ok(r[i]) == GetRowData(es[i])
  {
    seq(|es|, i requires 0 <= i < |es| => GetRowData(es[i]).value)
  }

  lemma RowsSnoc(es: seq<Element>, i: int)
    requires RowsOk(es) && 0 <= i < |es|
    ensures RowsOk(es[..i]) && RowsOk(es[..i + 1])
    ensures Rows(es[..i + 1]) == Rows(es[..i]) + [GetRowData(es[i]).value]
  {
    assert RowsOk(es[..i]) && RowsOk(es[..i + 1]);
    assert Rows(es[..i + 1]) == Rows(es[..i]) + [GetRowData(es[i]).value];
  }

  /** initSheetData does not panic: a slice starts with a struct and holds only structs and slices, and its header loop does not panic. */
  predicate InitOk(l: Layout, a: Input, c: Config) {
    match a
    case StructInput(fs) => Fold(l, fs, c).Some?
    case SliceInput(es) => RowsOk(es) && (es != [] ==> es[0].Record? && Fold(l, es[0].fields, c).Some?)
    case OtherInput => true
  }

  /** The layout initSheetData leaves: derived from the struct, or from element 0 of a non-empty slice; otherwise unchanged. */
  function InitLayout(l: Layout, a: Input, c: Config): (r: Layout)
    requires InitOk(l, a, c)
    ensures a.SliceInput? && a.elems != [] ==> Some(r) == Fold(l, a.elems[0].fields, c)
    ensures a.StructInput? ==> Some(r) == Fold(l, a.fields, c)
    ensures a.OtherInput? || a == SliceInput([]) ==> r == l
  {
    match a
    case StructInput(fs) => Fold(l, fs, c).value
    case SliceInput(es) => if es == [] then l else Fold(l, es[0].fields, c).value
    case OtherInput => l
  }

  /** The rows initSheetData appends: one per slice element, none for a struct or any other kind. */
  function InputRows(a: Input): (r: seq<seq<Value>>)
    requires a.SliceInput? ==> RowsOk(a.elems)
    ensures a.SliceInput? ==> |r| == |a.elems|
    ensures !a.SliceInput? ==> r == []
  {
    if a.SliceInput? then Rows(a.elems) else []
  }

  /** The index of the first header equal to x, if any. */
  function FirstIndex(hs: seq<string>, x: string): (r: Option<nat>)
    ensures r.Some? ==> r.value < |hs| && hs[r.value] == x && forall j :: 0 <= j < r.value ==> hs[j] != x
    ensures r.None? ==> x !in hs
    decreases |hs|
  {
    if hs == [] then None
    else if hs[0] == x then Some(0)
    else match FirstIndex(hs[1..], x)
      case None => None
      case Some(i) => Some(i + 1)
  }

  /**
   * What findHeaderColumnName resolves a header title or column name to: the column of the first
   * header equal to it (counting every header, omitted ones included), else the name itself when
   * it contains an upper-case letter, else an error.
   */
  function ResolveColumn(hs: seq<string>, x: string): (r: Result<string>)
    ensures forall i :: 0 <= i < |hs| && hs[i] == x && (forall j :: 0 <= j < i ==> hs[j] != x) ==>
      r == ColumnNumberToName(i + 1)
    ensures x !in hs ==> r == (if ContainsUpper(x) then Ok(x) else Err(NotAColumnReference))
  {
    match FirstIndex(hs, x)
    case Some(i) => ColumnNumberToName(i + 1)
    case None => if ContainsUpper(x) then Ok(x) else Err(NotAColumnReference)
  }

  /** An omitted first header adds a title but no rendered column and no descriptor. */
  lemma OmitFirst(f: Field, c: Config)
    requires IsHeaderField(f) && HasTitle(f) && Title(f) in c.omitColNames
    ensures Step(EmptyLayout, f, c).Some?
    ensures var r := Step(EmptyLayout, f, c).value;
      WellFormed(r) && r.header == [Title(f)] && VisibleCount(r) == 0 && HeaderStyles(r) == []
  {
    EmptyLayoutWellFormed();
    StepPanics(EmptyLayout, f, c);
    StepHeader(EmptyLayout, f, c);
    StepOmit(EmptyLayout, f, c);
    StepWellFormed(EmptyLayout, f, c);
  }

  /** A styled header with no rendered column before it gets its descriptor at column A. */
  lemma StyledAtA(l: Layout, f: Field, c: Config)
    requires WellFormed(l) && VisibleCount(l) == 0 && HeaderStyles(l) == []
    requires IsHeaderField(f) && HasTitle(f) && Title(f) !in c.omitColNames && EffectiveStyle(f, c) != ""
    ensures Step(l, f, c).Some?
    ensures var r := Step(l, f, c).value;
      && r.header == l.header + [Title(f)]
      && HeaderStyles(r) == [Parsed(c.parse(EffectiveStyle(f, c)), Cell("A", HeaderRow), Cell("A", HeaderRow))]
  {
    StepPanics(l, f, c);
    StepHeader(l, f, c);
    StepHeaderStyleAppend(l, f, c);
    assert ColumnName(1) == "A";
  }

  /** The second of two distinct headers resolves to column B. */
  lemma ResolveSecond(t1: string, t2: string)
    requires t1 != t2
    ensures ResolveColumn([t1, t2], t2) == Ok("B")
  {
    assert FirstIndex([t1, t2], t2) == Some(1);
    assert ColumnName(2) == "B";
  }

  /**
   * Option columns and style columns count differently: findHeaderColumnName counts every header,
   * while header styles count only rendered ones. After an omitted header, a styled header's
   * descriptor sits in column A while its options resolve to column B.
   */
  lemma OptionColumnCountsOmittedHeaders(f1: Field, f2: Field, c: Config)
    requires IsHeaderField(f1) && HasTitle(f1) && Title(f1) in c.omitColNames
    requires IsHeaderField(f2) && HasTitle(f2) && Title(f2) !in c.omitColNames && Title(f2) != Title(f1)
    requires EffectiveStyle(f2, c) != ""
    ensures Fold(EmptyLayout, [f1, f2], c).Some?
    ensures var r := Fold(EmptyLayout, [f1, f2], c).value;
      && r.header == [Title(f1), Title(f2)]
      && HeaderStyles(r) == [Parsed(c.parse(EffectiveStyle(f2, c)), Cell("A", HeaderRow), Cell("A", HeaderRow))]
      && ResolveColumn(r.header, Title(f2)) == Ok("B")
  {
    OmitFirst(f1, c);
    var l1 := Step(EmptyLayout, f1, c).value;
    StyledAtA(l1, f2, c);
    FoldLast(EmptyLayout, [], f1, c);
    FoldLast(EmptyLayout, [f1], f2, c);
    assert [] + [f1] == [f1] && [f1] + [f2] == [f1, f2];
    ResolveSecond(Title(f1), Title(f2));
  }

  class Sheet {
    const name: string
    var notice: string
    var header: seq<string>
    var omitCols: set<int>
    var data: seq<seq<Value>>
    var pd: Option<PullDown>
    var styleRef: map<string, seq<Parsed>>
    var writeRow: int

    /** The fields setHeaderByStruct writes. */
    function View(): Layout
      reads this
    {
      Layout(notice, header, omitCols, styleRef)
    }

    ghost predicate Valid()
      reads this
    {
      name != "" && WellFormed(View())
    }

    /** The sheet literal of NewSheet: the name, an empty layout, no rows, no options, the cursor at 0. */
    constructor Empty(sheetName: string)
      requires sheetName != ""
      ensures Valid() && View() == EmptyLayout
      ensures name == sheetName && data == [] && pd == None && writeRow == 0
    {
      name := sheetName;
      notice := "";
      header := [];
      omitCols := {};
      data := [];
      pd := None;
      styleRef := map[];
      writeRow := 0;
      new;
      EmptyLayoutWellFormed();
    }

    /**
     * initSheetData: a slice takes its layout from element 0 and appends one row per element, in
     * order; a struct gives the layout and no rows; any other kind changes nothing.
     */
    method InitSheetData(a: Input, c: Config)
      requires Valid() && InitOk(View(), a, c)
      modifies this`notice, this`header, this`omitCols, this`styleRef, this`data
      ensures Valid()
      ensures View() == InitLayout(old(View()), a, c)
      ensures data == old(data) + InputRows(a)
    {
      ghost var l0 := View();
      match a
      case SliceInput(es) =>
        var i := 0;
        while i < |es|
          invariant 0 <= i <= |es|
          invariant Valid()
          invariant View() == if i == 0 then l0 else InitLayout(l0, a, c)
          invariant data == old(data) + Rows(es[..i])
        {
          if i == 0 {
            SetHeaderByStruct(es[0].fields, c);
            assert View() == InitLayout(l0, a, c);
          }
          RowsSnoc(es, i);
          data := data + [GetRowData(es[i]).value];
          i := i + 1;
        }
        assert es[..|es|] == es;
      case StructInput(fs) =>
        SetHeaderByStruct(fs, c);
      case OtherInput =>
    }

    /**
     * setHeaderByStruct: runs the field loop over one record, updating notice, header, omitCols
     * and styleRef in place. The new layout is Fold of the old one; the lemmas about Fold say what
     * that means.
     */
    method SetHeaderByStruct(fields: seq<Field>, c: Config)
      requires Valid() && Fold(View(), fields, c).Some?
      modifies this`notice, this`header, this`omitCols, this`styleRef
      ensures Valid()
      ensures Some(View()) == Fold(old(View()), fields, c)
    {
      ghost var start := View();
      FoldWellFormed(start, fields, c);
      var i := 0;
      while i < |fields|
        invariant 0 <= i <= |fields|
        invariant Fold(start, fields[..i], c) == Some(View())
      {
        FoldPrefix(start, fields, i + 1, c);
        assert fields[..i + 1][..i] == fields[..i];
        ApplyField(fields[i], c);
        i := i + 1;
      }
      assert fields[..|fields|] == fields;
    }

    /** The body of setHeaderByStruct's loop for one field: dispatch on the part its `excel` tag names. */
    method ApplyField(f: Field, c: Config)
      requires Step(View(), f, c).Some?
      modifies this`notice, this`header, this`omitCols, this`styleRef
      ensures Some(View()) == Step(old(View()), f, c)
    {
      if f.excel != "" {
        var params := Split(f.excel, Sep);
        if params[0] == NoticePart {
          notice := AsString(f.value);
          if f.style != "" {
            var noticeStyle := Parsed(c.parse(f.style), NoticeCell, NoticeCell);
            styleRef := styleRef[NoticePart := [noticeStyle]];
          }
        } else if params[0] == HeaderPart {
          ApplyHeaderField(f, params[1], c);
        }
      }
    }

    /** The `header|<title>` case of setHeaderByStruct's loop. */
    method ApplyHeaderField(f: Field, title: string, c: Config)
      requires IsHeaderField(f) && HasTitle(f) && title == Title(f)
      requires Step(View(), f, c).Some?
      modifies this`header, this`omitCols, this`styleRef
      ensures Some(View()) == Step(old(View()), f, c)
    {
      header := header + [title];
      if title in c.omitColNames {
        omitCols := omitCols + {|header| - 1};
      } else {
        var styleString := f.style;
        if title in c.redColNames {
          styleString := HighlightStyle;
        }
        if styleString != "" {
          var colName := ColumnNumberToName(|header| - |omitCols|);
          var names := c.parse(styleString);
          var ok := HeaderPart in styleRef;
          var pp := if ok then styleRef[HeaderPart] else [];
          if !ok || names != pp[|pp| - 1].names {
            var cell := Cell(colName.value, HeaderRow);
            styleRef := styleRef[HeaderPart := pp + [Parsed(names, cell, cell)]];
          } else {
            var last := pp[|pp| - 1];
            styleRef := styleRef[HeaderPart := pp[..|pp| - 1] + [last.(end := last.end.(col := colName.value))]];
          }
        }
      }
    }

    /** findHeaderColumnName: the first matching header's column, else a bare column name, else an error. */
    method FindHeaderColumnName(headOrColName: string) returns (r: Result<string>)
      ensures r == ResolveColumn(header, headOrColName)
    {
      var i := 0;
      while i < |header|
        invariant 0 <= i <= |header|
        invariant forall j :: 0 <= j < i ==> header[j] != headOrColName
      {
        if header[i] == headOrColName {
          return ColumnNumberToName(i + 1);
        }
        i := i + 1;
      }
      if !ContainsUpper(headOrColName) {
        return Err(NotAColumnReference);
      }
      return Ok(headOrColName);
    }

    /**
     * SetOptions: resolves the column, then installs a new option set as the builder or merges it
     * into the existing one. A resolution failure (a panic in the source) leaves the sheet unchanged.
     */
    method SetOptions(headOrColName: string, options: Value) returns (r: Result<string>)
      modifies this`pd
      ensures Valid() <==> old(Valid())
      ensures r == ResolveColumn(header, headOrColName)
      ensures r.Err? ==> pd == old(pd)
      ensures r.Ok? ==> pd == Some(MergeInto(old(pd), OptionSet(r.value, options)))
    {
      r := FindHeaderColumnName(headOrColName);
      if r.Ok? {
        pd := Some(MergeInto(pd, OptionSet(r.value, options)));
      }
    }

    /** getWriteRow: the address of the current row, which names exactly that row. */
    function GetWriteRow(): (addr: string)
      reads this
      ensures ParseRowAddress(addr) == Some(writeRow)
    {
      RowAddressRoundTrip(writeRow);
      RowAddress(writeRow)
    }

    /** nextWriteRow(num...): moves the cursor by num[0], or by 1 without an argument, and returns the new address. */
    method NextWriteRow(num: seq<int>) returns (addr: string)
      modifies this`writeRow
      ensures Valid() <==> old(Valid())
      ensures writeRow == old(writeRow) + (if |num| > 0 then num[0] else 1)
      ensures addr == GetWriteRow()
    {
      if |num| > 0 {
        writeRow := writeRow + num[0];
      } else {
        writeRow := writeRow + 1;
      }
      addr := RowAddress(writeRow);
    }

    /** resetWriteRow: puts the cursor on row 1 and returns "A1". */
    method ResetWriteRow() returns (addr: string)
      modifies this`writeRow
      ensures Valid() <==> old(Valid())
      ensures writeRow == 1
      ensures addr == GetWriteRow() == "A1"
    {
      writeRow := 1;
      addr := RowAddress(writeRow);
    }
  }

  /** NewSheet: a non-empty name is required; the empty sheet then goes through initSheetData. */
  method NewSheet(sheetName: string, a: Input, c: Config) returns (s: Sheet)
    requires sheetName != ""
    requires InitOk(EmptyLayout, a, c)
    ensures fresh(s) && s.Valid()
    ensures s.name == sheetName && s.writeRow == 0 && s.pd == None
    ensures s.View() == InitLayout(EmptyLayout, a, c)
    ensures s.data == InputRows(a)
  {
    s := new Sheet.Empty(sheetName);
    s.InitSheetData(a, c);
    assert s.data == [] + InputRows(a);
  }
}