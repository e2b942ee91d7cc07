/**
 * A Go struct as the sheet builder sees it through reflection: its fields in declaration order,
 * each with its `excel` tag, its `style` tag and its value. Also the field classification by
 * `excel` tag and getRowData, which turns one record into one row of cells.
 */
module Records {
  import opened Results
  import opened Strings

  /** The separator inside an `excel` tag, as in `header|Name`. */
  const Sep := '|'
  /** The two recognised parts (extra.NoticePart and extra.HeaderPart). */
  const NoticePart := "notice"
  const HeaderPart := "header"

  /** A cell value (Go `any`): a string, or a value of some other type, known only by its type and contents. */
  datatype Value = Str(text: string) | NonString(typeName: string, contents: int)

  /** reflect.Value.String(): the string itself, or "<T Value>" for a value of another type T. */
  function AsString(v: Value): string {
    match v
    case Str(s) => s
    case NonString(t, _) => "<" + t + " Value>"
  }

  datatype Field = Field(excel: string, style: string, value: Value)

  /** What a slice may hold: a struct, a nested slice, or anything else. */
  datatype Element = Record(fields: seq<Field>) | List(items: seq<Value>) | Scalar(item: Value)

  /** The kinds initSheetData tells apart: a struct, a slice, or any other kind (nil included). */
  datatype Input = StructInput(fields: seq<Field>) | SliceInput(elems: seq<Element>) | OtherInput

  /** The part named by an `excel` tag: the text before its first `|`. */
  function Part(tag: string): string {
    Split(tag, Sep)[0]
  }

  predicate IsNoticeField(f: Field) {
    f.excel != "" && Part(f.excel) == NoticePart
  }

  predicate IsHeaderField(f: Field) {
    f.excel != "" && Part(f.excel) == HeaderPart
  }

  /** A header tag carries a title when it has a second `|`-separated piece. */
  predicate HasTitle(f: Field) {
    |Split(f.excel, Sep)| >= 2
  }

  function Title(f: Field): string
    requires HasTitle(f)
  {
    Split(f.excel, Sep)[1]
  }

  /** Every header field of the record carries a title. */
  predicate Titled(fs: seq<Field>) {
    forall i :: 0 <= i < |fs| && IsHeaderField(fs[i]) ==> HasTitle(fs[i])
  }

  lemma TitledSnoc(fs: seq<Field>)
    requires fs != []
    ensures Titled(fs) <==>
      Titled(fs[..|fs| - 1]) && (IsHeaderField(fs[|fs| - 1]) ==> HasTitle(fs[|fs| - 1]))
  {
    var init := fs[..|fs| - 1];
    assert forall i :: 0 <= i < |init| ==> init[i] == fs[i];
  }

  /** The header titles in field order, omitted ones included. */
  function Titles(fs: seq<Field>): seq<string>
    requires Titled(fs)
    decreases |fs|
  {
    if fs == [] then []
    else
      var last := fs[|fs| - 1];
      Titles(fs[..|fs| - 1]) + (if IsHeaderField(last) then [Title(last)] else [])
  }

  /** The header fields in field order. */
  function HeaderFields(fs: seq<Field>): (r: seq<Field>)
    ensures forall i :: 0 <= i < |r| ==> IsHeaderField(r[i]) && r[i] in fs
    decreases |fs|
  {
    if fs == [] then []
    else
      var last := fs[|fs| - 1];
      var init := HeaderFields(fs[..|fs| - 1]);
      if IsHeaderField(last) then init + [last] else init
  }

  /** getRowData keeps a field when its `excel` tag is non-empty and not exactly "notice". */
  predicate IsRowField(f: Field) {
    f.excel != "" && f.excel != NoticePart
  }

  /** The fields getRowData turns into cells, in field order. */
  function RowFields(fs: seq<Field>): (r: seq<Field>)
    ensures forall i :: 0 <= i < |r| ==> IsRowField(r[i]) && r[i] in fs
    ensures forall f :: f in fs && IsRowField(f) ==> f in r
    decreases |fs|
  {
    if fs == [] then []
    else
      var last := fs[|fs| - 1];
      var init := RowFields(fs[..|fs| - 1]);
      if IsRowField(last) then init + [last] else init
  }

  /** Filtering is done field by field: the row of two field lists laid end to end is the two rows laid end to end. */
  lemma {:induction false} RowFieldsAppend(a: seq<Field>, b: seq<Field>)
    ensures RowFields(a + b) == RowFields(a) + RowFields(b)
    decreases |b|
  {
    if b == [] {
      assert a + b == a;
    } else {
      var b' := b[..|b| - 1];
      assert (a + b)[..|a + b| - 1] == a + b';
      assert (a + b)[|a + b| - 1] == b[|b| - 1];
      RowFieldsAppend(a, b');
    }
  }

  /** The cells of a list of fields: their values, in order. */
  function Cells(fs: seq<Field>): (r: seq<Value>)
    ensures |r| == |fs|
    ensures forall k :: 0 <= k < |fs| ==> r[k] == fs[k].value
  {
    seq(|fs|, k requires 0 <= k < |fs| => fs[k].value)
  }

  /** getRowData: a struct gives the values of its row fields, a slice is copied element by element, anything else is refused. */
  function GetRowData(e: Element): (r: Result<seq<Value>>)
    ensures r.Ok? <==> !e.Scalar?
    ensures e.Record? ==> r == Ok(Cells(RowFields(e.fields)))
    ensures e.List? ==> r == Ok(e.items)
    ensures r.Err? ==> r.error == UnsupportedKind
  {
    match e
    case Record(fs) => Ok(Cells(RowFields(fs)))
    case List(items) => Ok(items)
    case Scalar(_) => Err(UnsupportedKind)
  }

  /** A field whose `excel` tag is empty, exactly "notice", or a titled header tag. */
  predicate Regular(f: Field) {
    f.excel == "" || f.excel == NoticePart || (IsHeaderField(f) && HasTitle(f))
  }

  lemma {:induction false} RegularRowFieldsAreHeaderFields(fs: seq<Field>)
    requires forall i :: 0 <= i < |fs| ==> Regular(fs[i])
    ensures RowFields(fs) == HeaderFields(fs)
    decreases |fs|
  {
    if fs != [] {
      var last := fs[|fs| - 1];
      RegularRowFieldsAreHeaderFields(fs[..|fs| - 1]);
      assert Regular(last);
      if last.excel == NoticePart {
        assert Split(last.excel, Sep) == [NoticePart] by {
          SplitJoin([NoticePart], Sep);
        }
      } else if last.excel != "" {
        assert Part(last.excel) == HeaderPart;
        assert last.excel != NoticePart;
      }
    }
  }

  lemma {:induction false} TitlesOfHeaderFields(fs: seq<Field>)
    requires Titled(fs)
    ensures |Titles(fs)| == |HeaderFields(fs)|
    ensures forall k :: 0 <= k < |Titles(fs)| ==> HasTitle(HeaderFields(fs)[k]) && Titles(fs)[k] == Title(HeaderFields(fs)[k])
    decreases |fs|
  {
    if fs != [] {
      var init := fs[..|fs| - 1];
      assert Titled(init) by {
        forall i | 0 <= i < |init| && IsHeaderField(init[i]) ensures HasTitle(init[i]) {
          assert init[i] == fs[i];
        }
      }
      TitlesOfHeaderFields(init);
    }
  }

  /** The exact tags "notice" and "header" are classified as the parts they spell. */
  lemma ExactTagsNameTheirParts()
    ensures Part(NoticePart) == NoticePart && Part(HeaderPart) == HeaderPart
  {
    SplitJoin([NoticePart], Sep);
    SplitJoin([HeaderPart], Sep);
  }

  /**
   * For a record whose tags are all empty, "notice" or `header|<title>`, the row getRowData
   * produces runs parallel to the header: cell k is the value of the field whose title is header k.
   */
  lemma RowParallelToHeader(fs: seq<Field>)
    requires forall i :: 0 <= i < |fs| ==> Regular(fs[i])
    ensures Titled(fs)
    ensures GetRowData(Record(fs)).Ok?
    ensures |GetRowData(Record(fs)).value| == |Titles(fs)| == |HeaderFields(fs)|
    ensures forall k :: 0 <= k < |Titles(fs)| ==>
      HasTitle(HeaderFields(fs)[k]) && Titles(fs)[k] == Title(HeaderFields(fs)[k])
      && GetRowData(Record(fs)).value[k] == HeaderFields(fs)[k].value
  {
    ExactTagsNameTheirParts();
    assert Titled(fs) by {
      forall i | 0 <= i < |fs| && IsHeaderField(fs[i]) ensures HasTitle(fs[i]) {
        assert Regular(fs[i]);
      }
    }
    RegularRowFieldsAreHeaderFields(fs);
    TitlesOfHeaderFields(fs);
  }

  /**
   * A field with any other non-empty tag (say "comment", or "notice|x", which is not exactly
   * "notice") enters the row without entering the header.
   */
  lemma OtherTagEntersRowOnly(f: Field)
    requires IsRowField(f) && !IsHeaderField(f)
    ensures Titled([f]) && Titles([f]) == []
    ensures GetRowData(Record([f])) == Ok([f.value])
  {
    assert [f][..0] == [];
    assert RowFields([f]) == [f];
    assert Cells([f]) == [f.value];
  }
}
