# excelizex sheet model in Dafny

This project models the sheet-model builder of excelizex (`sheet.go`). excelizex is a thin Go
layer over the excelize spreadsheet library. A `sheet` reads a Go struct, or a slice of structs,
through the struct's field tags:

- `excel:"notice"` marks the notice banner field.
- `excel:"header|<title>"` marks a header column.
- `style:"..."` names the column's style.

From these tags the sheet collects:

- a notice text;
- the ordered header titles;
- the set of omitted header indices;
- one row of cell values per record;
- style descriptors for the "notice" and "header" regions.

It also keeps a write cursor that hands out `A<n>` addresses, and it collects dropdown option sets.

The project has six modules, one per file:

- `Results` (results.dfy): the `Option`/`Result` wrappers and the error kinds.
- `Strings` (strings.dfy): `strings.Split` with its inverse `Join`, `strconv.FormatInt` with
  its inverse `ParseInt`, and the unanchored `[A-Z]+` match.
- `Addressing` (addressing.dfy): excelize's column names in bijective base 26 (1→A, 26→Z,
  27→AA), limited to columns 1..16384, and the `"A" + row` cursor addresses.
- `Records` (records.dfy): a struct as reflection sees it. A record is a sequence of
  `Field(excel, style, value)`, and an input is a struct, a slice or some other kind. This
  module also has the tag classification and `getRowData`.
- `Layouts` (layout.dfy): what `setHeaderByStruct` derives.
  - `Step` is one iteration of its field loop, and `Fold` is the whole loop.
  - Both return `None` exactly where the Go code panics.
  - `WellFormed` is the invariant the loop keeps:
    - omitted indices are header indices;
    - the notice has at most one descriptor, at A1:A1;
    - header descriptors lie on row 2, within the rendered columns, left to right and not
      overlapping.
- `Sheets` (sheet.dfy): the `sheet` object as a class, and `NewSheet`.
  - `initSheetData`, `setHeaderByStruct`, `findHeaderColumnName` and `SetOptions` are methods
    or functions of the class. `NewSheet` is a method beside it that builds the sheet and runs
    `initSheetData`.
  - The cursor operations are there too.
  - The methods update the fields in place. Each is proved against `Fold` or against the
    specification functions beside it.

## Model

| member | source | states |
|---|---|---|
| Strings.Split | sheet.go:120 | every piece of `strings.Split(tag, "\|")` is free of the separator, and there is always at least one piece |
| Strings.JoinSplit | sheet.go:120 | joining the pieces of a split with the separator gives the tag back |
| Strings.SplitJoin | sheet.go:120 | splitting the join of separator-free pieces gives those pieces back, so Split and Join are inverse |
| Strings.DecimalDigits | sheet.go:262 | the decimal digits of a number are digits only, with a leading zero only for 0 |
| Strings.FormatInt | sheet.go:262 | `strconv.FormatInt(n, 10)`: a minus sign exactly for negative n, followed by decimal digits only. There is no leading zero: 0 is exactly "0". ParseFormatInt proves it reads back |
| Strings.ParseDigits | sheet.go:262 | a digit string, with or without a leading minus sign, is read back as its value |
| Strings.ParseFormatInt | sheet.go:262 | `strconv.FormatInt(n, 10)` can be read back to n for every integer, negative ones included |
| Strings.ContainsUpper | sheet.go:224-226 | no contract of its own: the unanchored `[A-Z]+` match, true when any one character is an upper-case letter; ResolveColumn states how it decides findHeaderColumnName |
| Addressing.ColumnName | sheet.go:154 | a column name is a non-empty string of upper-case letters |
| Addressing.ColumnNumber | sheet.go:218 | an upper-case name denotes a column number of at least 1 |
| Addressing.ColumnNumberOfName | sheet.go:154 | the name of column n denotes n |
| Addressing.ColumnNameOfNumber | sheet.go:218 | every upper-case name is the name of the column it denotes, so names and numbers are in bijection |
| Addressing.ColumnNumberToName | sheet.go:154-157 | succeeds exactly for 1..16384, and its name denotes the column asked for; otherwise it is an out-of-range error |
| Addressing.RowAddress | sheet.go:262 | the cursor address `"A" + FormatInt(row)` starts with column A and has at least one more character. RowAddressRoundTrip proves it names its row |
| Addressing.RowAddressRoundTrip | sheet.go:262 | the address `"A" + FormatInt(row)` names exactly its row |
| Records.AsString | sheet.go:124 | no contract of its own: `reflect.Value.String()`, the text of a string, `<T Value>` otherwise; StepNotice and FoldNotice state where it sets the notice |
| Records.ExactTagsNameTheirParts | sheet.go:122-136 | the exact tags `notice` and `header` are classified as the notice and header parts |
| Records.HeaderFields | sheet.go:136-138 | the header fields are fields of the record whose `excel` part is `header` |
| Records.RowFields | sheet.go:194-201 | getRowData keeps exactly the fields whose `excel` tag is non-empty and not exactly `notice` |
| Records.RowFieldsAppend | sheet.go:194-201 | the filter works field by field, so the kept fields stay in field order |
| Records.Cells | sheet.go:199 | a row holds the kept fields' values, one per field, in order |
| Records.GetRowData | sheet.go:183-212 | a struct gives the values of its kept fields, a slice is copied element by element, and any other kind is an error |
| Records.TitledSnoc | sheet.go:111-138 | a record has a title on every header tag exactly when its prefix does and its last field does |
| Records.TitlesOfHeaderFields | sheet.go:136-138 | header title k is the title of header field k |
| Records.RegularRowFieldsAreHeaderFields | sheet.go:197-199 | when every tag is empty, `notice` or `header\|<title>`, the row fields are exactly the header fields |
| Records.RowParallelToHeader | sheet.go:197-199 | for such records the row is as long as the header, and cell k is the value of the field titled header k |
| Records.OtherTagEntersRowOnly | sheet.go:198 | a field with another non-empty tag (such as `comment` or `notice\|x`) gives a cell but no header title |
| Layouts.EffectiveStyle | sheet.go:145-148 | no contract of its own: a highlighted title takes `default-header-red`, whatever its style tag; StepHighlight and StepUnstyled state its effect |
| Layouts.Step | sheet.go:114-175 | no contract of its own: one loop iteration, None exactly where Go panics. StepPanics, StepHeader, StepOmit, StepNotice, StepStyleKeys, StepHeaderStyleUnchanged, StepHeaderStyleAppend, StepHeaderStyleMerge and StepWellFormed state it |
| Layouts.Fold | sheet.go:111-178 | no contract of its own: the field loop, Step over the fields in order, stopping at the first panic. FoldPrefix, FoldHeader, FoldOmitted, FoldNotice, FoldHeaderStyles, FoldDefined and FoldWellFormed state it |
| Layouts.WellFormed | sheet.go:111-178 | no contract of its own: the invariant of the loop. Omitted indices are header indices, the notice has at most one descriptor at A1:A1, and header descriptors lie on row 2 within the rendered columns, left to right without overlap. EmptyLayoutWellFormed, StepWellFormed and FoldWellFormed prove it is kept |
| Layouts.EmptyLayoutWellFormed | sheet.go:42-47 | a new sheet satisfies the layout invariant |
| Layouts.StepPanics | sheet.go:136-168 | under the invariant, the loop body panics exactly for a header tag without a title, or for a styled column past 16384 |
| Layouts.StepHeader | sheet.go:138 | a header field appends exactly its title, whether omitted or not; other fields leave the header alone |
| Layouts.StepOmit | sheet.go:139-143 | an omitted title adds index len(header)-1 to omitCols and leaves the styles alone; nothing else changes omitCols |
| Layouts.StepNotice | sheet.go:123-134 | a notice field sets the notice to its string value; a styled one replaces styleRef["notice"] by its one descriptor at A1:A1 |
| Layouts.StepStyleKeys | sheet.go:134-165 | styleRef gains only the key `notice` (from a styled notice) and the key `header` (from a styled header) |
| Layouts.StepHeaderStyleUnchanged | sheet.go:139-152 | omitted headers, unstyled headers and non-header fields leave the header descriptors unchanged |
| Layouts.StepHeaderStyleAppend | sheet.go:154-165 | a styled header whose style names differ from the last descriptor's appends one descriptor. Its start and end are both at row 2, in column len(header)-len(omitCols) |
| Layouts.StepHeaderStyleMerge | sheet.go:160-168 | a styled header with the last descriptor's style names appends nothing. It only moves that descriptor's end column to its own column |
| Layouts.StepHighlight | sheet.go:145-148 | a highlighted title is styled `default-header-red` even when its own style tag is empty |
| Layouts.StepUnstyled | sheet.go:150-152 | a non-highlighted header with an empty style tag adds no descriptor |
| Layouts.StepWellFormed | sheet.go:114-168 | one field keeps the layout invariant |
| Layouts.LastNotice | sheet.go:123-124 | a notice field it finds is one of the record's notice fields. LastNoticeIsLast states that it is the last one |
| Layouts.LastNoticeIsLast | sheet.go:123-124 | LastNotice is None exactly when no field is a notice field. Otherwise it is a field of the record with no notice field after it |
| Layouts.LastStyledNotice | sheet.go:127-134 | a field it finds is one of the record's notice fields and has a style. LastStyledNoticeIsLast states that it is the last one |
| Layouts.LastStyledNoticeIsLast | sheet.go:127-134 | LastStyledNotice is None exactly when no notice field has a style. Otherwise it is a field of the record with no styled notice field after it |
| Layouts.FoldPrefix | sheet.go:111 | if the whole loop does not panic, no prefix of it panics |
| Layouts.FoldHeader | sheet.go:111-138 | after the loop, header is the old header followed by the record's titles in field order, omitted ones included |
| Layouts.FoldOmitted | sheet.go:138-143 | omitCols gains exactly the positions of the titles to be omitted, each one below len(header) |
| Layouts.FoldNotice | sheet.go:123-134 | the last notice field sets the notice text, and the last styled notice field sets styleRef["notice"] |
| Layouts.FoldWellFormed | sheet.go:111-178 | the whole loop keeps the invariant: omitted indices are valid, and descriptors sit on row 2 in non-decreasing, non-overlapping columns |
| Layouts.KeepsEarlierTransitive | sheet.go:160-168 | keeping the earlier descriptors is transitive over successive fields |
| Layouts.StepHeaderStylesGrow | sheet.go:160-168 | one field adds at most one descriptor, removes none, and changes only the last one's end |
| Layouts.FoldHeaderStyles | sheet.go:160-168 | over the loop, at most one descriptor is added per header field. Earlier descriptors are kept, and the old last one keeps its start cell |
| Layouts.FoldDefined | sheet.go:154-157 | under the invariant, the loop cannot panic when every header tag has a title and the columns stay within 16384 |
| Layouts.MergeSpansUnstyledColumn | sheet.go:160-168 | equal styles merge across an unstyled column in between. One descriptor then spans columns A..C |
| Sheets.MergeInto | sheet.go:244-248 | the first SetOptions installs its option set, and later ones add theirs after the sets already there |
| Sheets.Rows | sheet.go:74-80 | one row per slice element, each getRowData of that element |
| Sheets.InitLayout | sheet.go:72-83 | a slice takes its layout from element 0 only, a struct from itself, and any other kind leaves it unchanged |
| Sheets.InputRows | sheet.go:72-83 | a slice yields one row per element; a struct or any other kind yields no rows |
| Sheets.FirstIndex | sheet.go:216-221 | finds the first header equal to the argument, or reports that there is none |
| Sheets.ResolveColumn | sheet.go:215-233 | the first equal header at index i resolves to the name of column i+1. Otherwise the argument itself is returned if it contains an A-Z letter, and an error if not |
| Sheets.OptionColumnCountsOmittedHeaders | sheet.go:216-218 | option columns count omitted headers while style columns do not. After an omitted header, a style sits in A but its options resolve to B |
| Sheets.Sheet.Empty | sheet.go:42-47 | the sheet literal: the given name, an empty layout that satisfies the invariant, no rows, no options, the cursor at 0 |
| Sheets.NewSheet | sheet.go:37-53 | needs a non-empty name. It returns a new sheet with the cursor at 0 and no options, whose layout and rows are those initSheetData derives from the input |
| Sheets.Sheet.InitSheetData | sheet.go:63-86 | the layout becomes InitLayout of the old one, exactly one row per slice element is appended in order, and the invariant holds |
| Sheets.Sheet.SetHeaderByStruct | sheet.go:89-181 | the in-place loop leaves exactly the layout Fold computes, and keeps the invariant |
| Sheets.Sheet.ApplyField | sheet.go:114-135 | one loop iteration updates the fields in place to Step of the old layout |
| Sheets.Sheet.ApplyHeaderField | sheet.go:136-168 | the header case of the loop updates header, omitCols and styleRef in place to Step of the old layout |
| Sheets.Sheet.FindHeaderColumnName | sheet.go:215-233 | the search loop returns exactly ResolveColumn of the header |
| Sheets.Sheet.SetOptions | sheet.go:236-251 | resolves the column. On success it installs or merges the option set; on failure it leaves the options unchanged. The sheet invariant holds after the call exactly when it held before |
| Sheets.Sheet.GetWriteRow | sheet.go:265-267 | the returned address names exactly the current row |
| Sheets.Sheet.NextWriteRow | sheet.go:255-263 | moves the cursor by exactly num[0], or by 1 without an argument, and returns the new address. The sheet invariant holds after the call exactly when it held before |
| Sheets.Sheet.ResetWriteRow | sheet.go:269-273 | puts the cursor on row 1 and returns "A1". The sheet invariant holds after the call exactly when it held before |

## Behaviour of sheet.go worth knowing

- Header descriptors merge with the *last* descriptor, even across an unstyled column. Two
  equally styled headers with an unstyled one between them share one descriptor that spans
  all three columns (`MergeSpansUnstyledColumn`).
- getRowData keeps every field with a non-empty tag that is not exactly `notice`. Any other tag
  gives a cell but no header title, so such a row is longer than the header
  (`OtherTagEntersRowOnly`). A tag such as `notice|x` counts as a notice for the layout and
  also gives a cell.
- findHeaderColumnName accepts any argument that contains an upper-case letter, because the
  `[A-Z]+` match is unanchored (`ResolveColumn`).
- Option columns count omitted headers, but style columns do not
  (`OptionColumnCountsOmittedHeaders`).
- `nextWriteRow(n)` adds any n, negative ones included, and `resetWriteRow` sets the cursor
  back to 1, so the cursor can move backwards (`NextWriteRow`, `ResetWriteRow`).
- When several fields are tagged `notice`, the last one sets the text and the last styled one
  sets the notice style (`FoldNotice`, `LastNoticeIsLast`, `LastStyledNoticeIsLast`).
- Pointers are handled unevenly. initSheetData dereferences only the type of its input
  (sheet.go:67-69), not the value. A pointer to a slice is therefore classified as a slice
  but panics at `val.Len()` (sheet.go:74). A pointer to a struct works, because
  setHeaderByStruct dereferences both type and value (sheet.go:92-95). The model has no
  pointers, so this panic is not modelled.

## Left out

- `excel.go` is not part of this model. `New`, `Save` and `AddSheets` only call excelize, and
  `sheet.Excel` (sheet.go:55-61) only hands the sheet to them.
- Go reflection is not modelled. That covers `TypeOf`/`ValueOf`, pointer dereference and
  `Tag.Get`. A record is its sequence of fields, and a nil input is treated like any other
  unsupported kind: both change nothing.
- `style.TagParse(...).Parse()` is not part of this model. It is a parameter `parse` from a
  style string to style names, compared only for equality. Its panic on unknown style names is
  not modelled. Go's `reflect.DeepEqual` also tells a nil slice from an empty one; here both
  are the empty sequence.
- `extra.NoticePart` and `extra.HeaderPart` are not part of this model. They are taken to be
  `notice` and `header`.
- `pullDown` (`newPullDown`, `addOptions`, `merge`) is not part of this model. The sheet
  records the option sets merged into it, in order, and not how a merge combines them.
- excelize's `ColumnNumberToName` is modelled by its result only: bijective base 26 within
  1..16384. Its own loop is not modelled.
- Panics that happen part-way through a mutation are preconditions. That covers
  setHeaderByStruct, initSheetData and NewSheet: a header tag without `|<title>`, a styled
  column past 16384, a slice that starts with a non-struct, and a slice element that is
  neither a struct nor a slice. The panics in findHeaderColumnName and SetOptions happen
  before any change, so they are error results that leave the sheet as it was.
- Sheets.NewSheet: NewSheet's empty-name panic (sheet.go:38-39) also comes before any change.
  It is nevertheless a precondition by choice, because no sheet exists yet to return unchanged.
- Style descriptors are values. The Go code widens the last descriptor through a pointer. Here
  the last element of the descriptor list is replaced, since nothing else refers to it.
- Cell values (`any`) are opaque. A value is either a string or a value of another type, and
  only `reflect.Value.String()` looks into it.
- Sheets.Sheet.NextWriteRow: does not model 64-bit wrap-around of the Go `int` cursor, because
  the cursor is an unbounded integer here.
- The commented-out data-style code (sheet.go:170-173) does nothing and is not modelled.
