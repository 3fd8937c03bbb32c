/** `Hubctl::Formatter`: how a command's result becomes a table, a list of
    tab-separated lines, JSON or an `inspect` dump, and which stream the
    log messages go to. Rendering by TTY::Table and JSON generation are
    foreign; the model stops at the headers and rows handed to them. Colour
    escapes added by Pastel are not modelled: a marker is its bare glyph. */
module Formatter {
  import opened Common

  /** A Ruby value as the formatter sees it: `Text` carries `to_s` of any
      value that is not a boolean, nil or a time (strings, numbers, symbols). */
  datatype Value = Bool(b: bool) | Nil | Time(t: Timestamp) | Text(shown: string)

  /** The calendar fields of a `Time`/`DateTime` that the formatter prints. */
  datatype Timestamp = Timestamp(year: nat, month: nat, day: nat, hour: nat, minute: nat)

  predicate IsDigits(s: string) {
    forall k :: 0 <= k < |s| ==> '0' <= s[k] <= '9'
  }

  /** `s` left-padded with zeros to at least `width` characters. */
  function PadLeft(s: string, width: nat): (r: string)
    ensures |r| == if |s| >= width then |s| else width
    ensures r[|r| - |s|..] == s
    ensures forall k :: 0 <= k < |r| - |s| ==> r[k] == '0'
  {
    if |s| >= width then s else seq(width - |s|, _ => '0') + s
  }

  /** A run of decimal digits holds no tab or line break. */
  lemma DigitsHaveNoBreakers(s: string)
    requires IsDigits(s)
    ensures NoBreakers(s)
  {
  }

  /** A zero-padded decimal field of `strftime`: it reads back as `n`,
      and it is exactly `width` digits long when `n` fits in them. */
  function Field(n: nat, width: nat): (r: string)
    ensures IsDigits(r)
    ensures NoBreakers(r)
    ensures DigitsValue(r) == n
    ensures |r| >= width
    ensures width >= 1 && n < Pow10(width) ==> |r| == width
  {
    PaddedDigits(n, width);
    PaddedValue(n, width);
    PaddedWidth(n, width);
    PadLeft(NatToString(n), width)
  }

  /** Zero padding a number's digits leaves only digits. */
  lemma PaddedDigits(n: nat, width: nat)
    ensures IsDigits(PadLeft(NatToString(n), width))
    ensures NoBreakers(PadLeft(NatToString(n), width))
  {
    var digits := NatToString(n);
    var r := PadLeft(digits, width);
    var pad := |r| - |digits|;
    assert forall k :: pad <= k < |r| ==> r[k] == digits[k - pad] by {
      assert r[pad..] == digits;
    }
    DigitsHaveNoBreakers(r);
  }

  /** Zero padding keeps the value. */
  lemma PaddedValue(n: nat, width: nat)
    ensures DigitsValue(PadLeft(NatToString(n), width)) == n
  {
    var digits := NatToString(n);
    NatToStringValue(n);
    if |digits| < width {
      LeadingZerosValue(width - |digits|, digits);
    }
  }

  /** Padding reaches exactly the width when the number has no more digits
      than that. */
  lemma PaddedWidth(n: nat, width: nat)
    ensures |PadLeft(NatToString(n), width)| >= width
    ensures width >= 1 && n < Pow10(width) ==> |PadLeft(NatToString(n), width)| == width
  {
    if width >= 1 && n < Pow10(width) {
      NatToStringLength(n, width);
    }
  }

  /** The fields fit the layout's widths: four digits of year, two of each
      other field. Every time of years 0 to 9999 does. */
  predicate FitsLayout(t: Timestamp) {
    t.year < 10000 && t.month < 100 && t.day < 100 && t.hour < 100 && t.minute < 100
  }

  /** Reads a 'YYYY-MM-DD HH:MM' stamp back into its fields. */
  function ParseStamp(s: string): Timestamp
    requires |s| == 16
  {
    Timestamp(DigitsValue(s[..4]), DigitsValue(s[5..7]), DigitsValue(s[8..10]),
              DigitsValue(s[11..13]), DigitsValue(s[14..]))
  }

  /** `strftime('%Y-%m-%d %H:%M')`: sixteen characters with the separators
      in place, whose digit fields read back as the time. */
  function Stamp(t: Timestamp): (r: string)
    ensures NoBreakers(r)
    ensures FitsLayout(t) ==>
              && |r| == 16
              && r[4] == '-' && r[7] == '-' && r[10] == ' ' && r[13] == ':'
              && IsDigits(r[..4]) && IsDigits(r[5..7]) && IsDigits(r[8..10])
              && IsDigits(r[11..13]) && IsDigits(r[14..])
              && ParseStamp(r) == t
  {
    StampHasNoBreakers(t);
    StampReadsBack(t);
    StampText(t)
  }

  /** The stamp's text: date, a space, then the time of day. */
  function StampText(t: Timestamp): string {
    (Field(t.year, 4) + "-" + Field(t.month, 2) + "-" + Field(t.day, 2))
    + " " + (Field(t.hour, 2) + ":" + Field(t.minute, 2))
  }

  lemma StampHasNoBreakers(t: Timestamp)
    ensures NoBreakers(StampText(t))
  {
    JoinedNoBreakers(Field(t.year, 4), Field(t.month, 2), Field(t.day, 2), Field(t.hour, 2), Field(t.minute, 2));
  }

  /** Separators are no breakers, so joining clean fields stays clean. */
  lemma JoinedNoBreakers(y: string, mo: string, d: string, h: string, mi: string)
    requires NoBreakers(y) && NoBreakers(mo) && NoBreakers(d) && NoBreakers(h) && NoBreakers(mi)
    ensures NoBreakers((y + "-" + mo + "-" + d) + " " + (h + ":" + mi))
  {
  }

  /** A stamp whose fields fit the layout reads back as its time. */
  lemma StampReadsBack(t: Timestamp)
    ensures var r := StampText(t);
            FitsLayout(t) ==>
            && |r| == 16
            && r[4] == '-' && r[7] == '-' && r[10] == ' ' && r[13] == ':'
            && IsDigits(r[..4]) && IsDigits(r[5..7]) && IsDigits(r[8..10])
            && IsDigits(r[11..13]) && IsDigits(r[14..])
            && ParseStamp(r) == t
  {
    if FitsLayout(t) {
      assert Pow10(2) == 100 && Pow10(4) == 10000 by {
        assert Pow10(1) == 10;
        assert Pow10(3) == 1000;
      }
      StampLayout(Field(t.year, 4), Field(t.month, 2), Field(t.day, 2), Field(t.hour, 2), Field(t.minute, 2));
    }
  }

  /** Where each field and separator sits in a stamp with fields of the
      layout's widths. */
  lemma StampLayout(y: string, mo: string, d: string, h: string, mi: string)
    requires |y| == 4 && |mo| == 2 && |d| == 2 && |h| == 2 && |mi| == 2
    ensures var r := (y + "-" + mo + "-" + d) + " " + (h + ":" + mi);
            && |r| == 16
            && r[..4] == y && r[5..7] == mo && r[8..10] == d && r[11..13] == h && r[14..] == mi
            && r[4] == '-' && r[7] == '-' && r[10] == ' ' && r[13] == ':'
  {
  }

  /** A hash key: the commands build hashes with symbol keys; string keys
      are looked up as a fallback. */
  datatype Key = Sym(name: string) | Str(name: string)

  type Entries = seq<(Key, Value)>

  /** One element of an array handed to `output`. */
  datatype Datum = HashDatum(entries: Entries) | ArrayDatum(cells: seq<Value>) | ScalarDatum(v: Value)

  /** What a command hands to `output`: an array or a single hash. */
  datatype Data = ArrayData(items: seq<Datum>) | HashData(entries: Entries)

  datatype Stream = Stdout | Stderr

  /** What `output` produces. `Lines` are printed one per line. `Raised`
      stands for the exception Ruby raises when a later array element cannot
      be indexed (or mapped over) like the first one; with no headers to
      look up, no element is indexed. */
  datatype Rendering =
    | Json(data: Data)
    | Table(headers: Option<seq<string>>, rows: seq<seq<string>>)
    | Lines(lines: seq<string>)
    | Inspect(data: Data)
    | Raised

  const CheckMark := "\U{2713}"
  const CrossMark := "\U{2717}"
  const Dash := "-"
  const NoDataLine := "No data to display"
  const CellWidth: nat := 50
  const Ellipsis := "..."

  // ---------------------------------------------------------------------
  // Streams
  // ---------------------------------------------------------------------

  /** `output_stream`: structured formats keep stdout clean for the data. */
  function OutputStream(format: string): (r: Stream)
    ensures r == Stderr <==> format == "json" || format == "list"
  {
    if format in {"json", "list"} then Stderr else Stdout
  }

  // ---------------------------------------------------------------------
  // Table cells
  // ---------------------------------------------------------------------

  /** `truncate_text`: text over the limit keeps its first `length - 3`
      characters and ends in "...". */
  function TruncateText(text: string, length: nat): (r: string)
    requires length >= |Ellipsis|
    ensures |text| <= length ==> r == text
    ensures |text| > length ==> |r| == length
    ensures |text| > length ==> r[..length - 3] == text[..length - 3] && EndsWith(r, Ellipsis)
    ensures |r| <= length
  {
    if |text| > length then text[..length - 3] + Ellipsis else text
  }

  /** A truncated text is already short enough: truncating twice is
      truncating once. */
  lemma TruncateTextIdempotent(text: string, length: nat)
    requires length >= |Ellipsis|
    ensures TruncateText(TruncateText(text, length), length) == TruncateText(text, length)
  {
  }

  /** `format_cell_value`. */
  function FormatCellValue(v: Value): (r: string)
    ensures v == Bool(true) ==> r == CheckMark
    ensures v == Bool(false) ==> r == CrossMark
    ensures v == Nil ==> r == Dash
    ensures v.Time? ==> r == Stamp(v.t)
    ensures v.Text? ==> |r| <= CellWidth && (|v.shown| <= CellWidth ==> r == v.shown)
    ensures v.Text? && |v.shown| > CellWidth ==>
              |r| == CellWidth && StartsWith(v.shown, r[..CellWidth - 3]) && EndsWith(r, Ellipsis)
  {
    match v
    case Bool(b) => if b then CheckMark else CrossMark
    case Nil => Dash
    case Time(t) => Stamp(t)
    case Text(shown) => TruncateText(shown, CellWidth)
  }

  /** Ruby's truthiness of a formatter value. */
  predicate IsTruthy(v: Value) {
    v != Nil && v != Bool(false)
  }

  /** `hash[key]`: the value of the first entry with that key, or nil. */
  function Lookup(entries: Entries, k: Key): (r: Value)
    ensures r != Nil ==> exists i :: 0 <= i < |entries| && entries[i] == (k, r)
    decreases |entries|
  {
    if |entries| == 0 then Nil
    else if entries[0].0 == k then entries[0].1
    else Lookup(entries[1..], k)
  }

  /** `item[h.to_sym] || item[h]` as written: a symbol key holding `false`
      falls through to the string key, which is normally absent. */
  function CellValueAsWritten(entries: Entries, h: string): (r: Value)
    ensures IsTruthy(Lookup(entries, Sym(h))) ==> r == Lookup(entries, Sym(h))
    ensures !IsTruthy(Lookup(entries, Sym(h))) ==> r == Lookup(entries, Str(h))
    ensures r == Bool(false) ==> Lookup(entries, Str(h)) == Bool(false)
    ensures r != Nil ==> exists i :: 0 <= i < |entries| && (entries[i] == (Sym(h), r) || entries[i] == (Str(h), r))
  {
    var v := Lookup(entries, Sym(h));
    if IsTruthy(v) then v else Lookup(entries, Str(h))
  }

  /** The lookup the table code evidently means: the symbol key's value
      whenever that key is present, the string key's otherwise. */
  function CellValue(entries: Entries, h: string): (r: Value)
    ensures (exists i :: 0 <= i < |entries| && entries[i].0 == Sym(h)) ==> r == Lookup(entries, Sym(h))
    ensures (forall i :: 0 <= i < |entries| ==> entries[i].0 != Sym(h)) ==> r == Lookup(entries, Str(h))
  {
    if HasKey(entries, Sym(h)) then Lookup(entries, Sym(h)) else Lookup(entries, Str(h))
  }

  predicate HasKey(entries: Entries, k: Key)
    ensures HasKey(entries, k) <==> exists i :: 0 <= i < |entries| && entries[i].0 == k
    decreases |entries|
  {
    |entries| > 0 && (entries[0].0 == k || HasKey(entries[1..], k))
  }

  /** As written, a `false` under a symbol key is shown as the nil dash. */
  lemma FalseCellShownAsDash(h: string)
    ensures FormatCellValue(CellValueAsWritten([(Sym(h), Bool(false))], h)) == Dash
    ensures FormatCellValue(CellValue([(Sym(h), Bool(false))], h)) == CrossMark
  {
    assert HasKey([(Sym(h), Bool(false))], Sym(h));
  }

  /** Where the symbol key holds a truthy value, both lookups agree. */
  lemma CellValueAgreesOnTruthy(entries: Entries, h: string)
    requires IsTruthy(Lookup(entries, Sym(h)))
    ensures CellValueAsWritten(entries, h) == CellValue(entries, h)
  {
    var v := Lookup(entries, Sym(h));
    assert v != Nil;
    var i :| 0 <= i < |entries| && entries[i] == (Sym(h), v);
    assert entries[i].0 == Sym(h);
  }

  function KeyName(k: Key): string {
    k.name
  }

  /** `hash.keys.map(&:to_s)`. */
  function KeyNames(entries: Entries): (r: seq<string>)
    ensures |r| == |entries|
    ensures forall i :: 0 <= i < |entries| ==> r[i] == KeyName(entries[i].0)
  {
    seq(|entries|, i requires 0 <= i < |entries| => KeyName(entries[i].0))
  }

  /** One table row of an array-of-hashes table. */
  function HashRow(entries: Entries, headers: seq<string>): (r: seq<string>)
    ensures |r| == |headers|
    ensures forall j :: 0 <= j < |headers| ==> r[j] == FormatCellValue(CellValue(entries, headers[j]))
  {
    seq(|headers|, j requires 0 <= j < |headers| => FormatCellValue(CellValue(entries, headers[j])))
  }

  predicate AllHashes(items: seq<Datum>) {
    forall i :: 0 <= i < |items| ==> items[i].HashDatum?
  }

  /** Every element can be mapped over: an array, or a hash (whose `map`
      yields its `[key, value]` pairs). */
  predicate NoScalars(items: seq<Datum>) {
    forall i :: 0 <= i < |items| ==> !items[i].ScalarDatum?
  }

  /** `row.map { |cell| format_cell_value(cell) }`. A hash row yields its
      pairs, each shown as `[key, value].to_s`; that text, which Ruby builds
      with `inspect`, is supplied as `showPair`. */
  function ArrayRow(item: Datum, showPair: (Key, Value) -> string): (r: seq<string>)
    requires !item.ScalarDatum?
    ensures item.ArrayDatum? ==>
              |r| == |item.cells| && forall j :: 0 <= j < |r| ==> r[j] == FormatCellValue(item.cells[j])
    ensures item.HashDatum? ==>
              |r| == |item.entries|
              && forall j :: 0 <= j < |r| ==>
                   r[j] == TruncateText(showPair(item.entries[j].0, item.entries[j].1), CellWidth)
  {
    match item
    case ArrayDatum(cells) =>
      seq(|cells|, j requires 0 <= j < |cells| => FormatCellValue(cells[j]))
    case HashDatum(entries) =>
      seq(|entries|, j requires 0 <= j < |entries| => FormatCellValue(Text(showPair(entries[j].0, entries[j].1))))
  }

  predicate IsEmpty(data: Data) {
    match data
    case ArrayData(items) => |items| == 0
    case HashData(entries) => |entries| == 0
  }

  /** `output_table`: the headers and rows handed to TTY::Table. */
  function OutputTable(data: Data, headers: Option<seq<string>>, showPair: (Key, Value) -> string): (r: Rendering)
    ensures IsEmpty(data) ==> r == Lines([NoDataLine])
    ensures data.ArrayData? && |data.items| > 0 && AllHashes(data.items) ==>
              && r.Table? && r.headers.Some?
              && r.headers.value == headers.GetOr(KeyNames(data.items[0].entries))
              && |r.rows| == |data.items|
              && forall i :: 0 <= i < |r.rows| ==>
                   r.rows[i] == HashRow(data.items[i].entries, r.headers.value)
    ensures data.ArrayData? && |data.items| > 0 && data.items[0].HashDatum? ==>
              (r == Raised <==> !AllHashes(data.items) && |headers.GetOr(KeyNames(data.items[0].entries))| > 0)
    ensures data.ArrayData? && |data.items| > 0 && data.items[0].HashDatum?
            && |headers.GetOr(KeyNames(data.items[0].entries))| == 0 ==>
              && r.Table? && r.headers == Some([])
              && |r.rows| == |data.items|
              && forall i :: 0 <= i < |r.rows| ==> r.rows[i] == []
    ensures data.ArrayData? && |data.items| > 0 && data.items[0].ArrayDatum? ==>
              (r == Raised <==> !NoScalars(data.items))
    ensures data.ArrayData? && |data.items| > 0 && data.items[0].ArrayDatum? && NoScalars(data.items) ==>
              && r.Table? && r.headers == headers
              && |r.rows| == |data.items|
              && forall i :: 0 <= i < |r.rows| ==> r.rows[i] == ArrayRow(data.items[i], showPair)
    ensures data.HashData? && |data.entries| > 0 ==>
              && r.Table? && r.headers == Some(headers.GetOr(["Key", "Value"]))
              && |r.rows| == |data.entries|
              && forall i :: 0 <= i < |r.rows| ==>
                   r.rows[i] == [KeyName(data.entries[i].0), FormatCellValue(data.entries[i].1)]
    ensures data.ArrayData? && |data.items| > 0 && data.items[0].ScalarDatum? ==> r == Inspect(data)
  {
    match data
    case HashData(entries) =>
      if |entries| == 0 then Lines([NoDataLine])
      else
        Table(Some(headers.GetOr(["Key", "Value"])),
              seq(|entries|, i requires 0 <= i < |entries| =>
                [KeyName(entries[i].0), FormatCellValue(entries[i].1)]))
    case ArrayData(items) =>
      if |items| == 0 then Lines([NoDataLine])
      else match items[0]
        case HashDatum(first) =>
          var hs := headers.GetOr(KeyNames(first));
          if |hs| == 0 then Table(Some(hs), seq(|items|, _ => []))
          else if !AllHashes(items) then Raised
          else Table(Some(hs), seq(|items|, i requires 0 <= i < |items| => HashRow(items[i].entries, hs)))
        case ArrayDatum(_) =>
          if !NoScalars(items) then Raised
          else Table(headers, seq(|items|, i requires 0 <= i < |items| => ArrayRow(items[i], showPair)))
        case ScalarDatum(_) => Inspect(data)
  }

  /** With no headers, `headers.map` never runs its block, so a later
      element that is not a hash is never indexed. */
  lemma EmptyHeadersIndexNothing(showPair: (Key, Value) -> string)
    ensures OutputTable(ArrayData([HashDatum([]), ScalarDatum(Nil)]), None, showPair)
              == Table(Some([]), [[], []])
  {
  }

  // ---------------------------------------------------------------------
  // List (TSV) output
  // ---------------------------------------------------------------------

  /** The characters `String#strip` removes: NUL, tab, LF, VT, FF, CR, space. */
  predicate IsStripSpace(c: char) {
    c == '\0' || c == '\t' || c == '\n' || c == '\U{B}' || c == '\U{C}' || c == '\r' || c == ' '
  }

  predicate AllStripSpace(s: string) {
    forall k :: 0 <= k < |s| ==> IsStripSpace(s[k])
  }

  /** Neither end of `r` is whitespace. */
  predicate NoEdgeSpace(r: string) {
    |r| == 0 || (!IsStripSpace(r[0]) && !IsStripSpace(r[|r| - 1]))
  }

  /** `r` is the infix of `s` at `i`, with only whitespace around it. */
  predicate SpacedInfix(s: string, r: string, i: int) {
    0 <= i <= |s| - |r| && r == s[i..i + |r|]
    && AllStripSpace(s[..i]) && AllStripSpace(s[i + |r|..])
  }

  predicate IsTsvBreaker(c: char) {
    c == '\n' || c == '\r' || c == '\t'
  }

  /** A text that cannot split a TSV line or field. */
  predicate NoBreakers(s: string) {
    '\n' !in s && '\r' !in s && '\t' !in s
  }

  /** `gsub(/[\n\r\t]/, ' ')`. */
  function ReplaceBreakers(s: string): (r: string)
    ensures |r| == |s|
    ensures forall k :: 0 <= k < |s| ==> r[k] == if IsTsvBreaker(s[k]) then ' ' else s[k]
    ensures NoBreakers(r)
    ensures NoBreakers(s) ==> r == s
  {
    seq(|s|, k requires 0 <= k < |s| => if IsTsvBreaker(s[k]) then ' ' else s[k])
  }

  /** `String#strip` on the left: drops the maximal leading run of
      whitespace. */
  function StripLeft(s: string): (r: string)
    ensures |r| <= |s| && r == s[|s| - |r|..]
    ensures AllStripSpace(s[..|s| - |r|])
    ensures |r| == 0 || !IsStripSpace(r[0])
    decreases |s|
  {
    if |s| > 0 && IsStripSpace(s[0]) then
      var r := StripLeft(s[1..]);
      StripLeftStep(s, r);
      r
    else s
  }

  /** One more leading space dropped in front of a stripped suffix. */
  lemma StripLeftStep(s: string, r: string)
    requires |s| > 0 && IsStripSpace(s[0])
    requires |r| <= |s| - 1 && r == s[1..][|s| - 1 - |r|..]
    requires AllStripSpace(s[1..][..|s| - 1 - |r|])
    ensures r == s[|s| - |r|..]
    ensures AllStripSpace(s[..|s| - |r|])
  {
    var t := s[1..];
    assert t[|t| - |r|..] == s[|s| - |r|..];
    assert s[..|s| - |r|] == [s[0]] + t[..|t| - |r|];
  }

  /** `String#strip` on the right: drops the maximal trailing run of
      whitespace. */
  function StripRight(s: string): (r: string)
    ensures |r| <= |s| && r == s[..|r|]
    ensures AllStripSpace(s[|r|..])
    ensures |r| == 0 || !IsStripSpace(r[|r| - 1])
    decreases |s|
  {
    if |s| > 0 && IsStripSpace(s[|s| - 1]) then
      var r := StripRight(s[..|s| - 1]);
      StripRightStep(s, r);
      r
    else s
  }

  /** One more trailing space dropped after a stripped prefix. */
  lemma StripRightStep(s: string, r: string)
    requires |s| > 0 && IsStripSpace(s[|s| - 1])
    requires |r| <= |s| - 1 && r == s[..|s| - 1][..|r|]
    requires AllStripSpace(s[..|s| - 1][|r|..])
    ensures r == s[..|r|]
    ensures AllStripSpace(s[|r|..])
  {
    var t := s[..|s| - 1];
    assert t[..|r|] == s[..|r|];
    assert s[|r|..] == t[|r|..] + [s[|s| - 1]];
  }

  /** `String#strip`: the infix left once the surrounding whitespace is gone. */
  function Strip(s: string): (r: string)
    ensures NoEdgeSpace(r)
    ensures forall c :: c in r ==> c in s
    ensures exists i :: SpacedInfix(s, r, i)
  {
    var left := StripLeft(s);
    var r := StripRight(left);
    StripSlice(s, left, r);
    r
  }

  /** Stripping the right of a stripped suffix leaves an infix of the
      whole with no space at either end. */
  lemma StripSlice(s: string, left: string, r: string)
    requires |left| <= |s| && left == s[|s| - |left|..] && AllStripSpace(s[..|s| - |left|])
    requires |left| == 0 || !IsStripSpace(left[0])
    requires |r| <= |left| && r == left[..|r|] && AllStripSpace(left[|r|..])
    requires |r| == 0 || !IsStripSpace(r[|r| - 1])
    ensures NoEdgeSpace(r)
    ensures forall c :: c in r ==> c in s
    ensures exists i :: SpacedInfix(s, r, i)
  {
    var i := |s| - |left|;
    if |r| > 0 {
      assert r[0] == left[0];
    }
    assert s[i + |r|..] == left[|r|..];
    assert r == s[i..i + |r|];
    forall c | c in r
      ensures c in s
    {
      var k :| 0 <= k < |r| && r[k] == c;
      assert s[i + k] == c;
    }
    assert SpacedInfix(s, r, i);
  }

  /** `format_list_value`: a field with no tab or line break and no
      surrounding whitespace. */
  function FormatListValue(v: Value): (r: string)
    ensures v == Bool(true) ==> r == "true"
    ensures v == Bool(false) ==> r == "false"
    ensures v == Nil ==> r == Dash
    ensures v.Time? ==> r == Stamp(v.t)
    ensures v.Text? ==> NoBreakers(r)
    ensures v.Text? ==> NoEdgeSpace(r)
    ensures v.Text? ==> r == Strip(ReplaceBreakers(v.shown))
  {
    match v
    case Bool(b) => if b then "true" else "false"
    case Nil => Dash
    case Time(t) => Stamp(t)
    case Text(shown) =>
      CleanField(shown);
      Strip(ReplaceBreakers(shown))
  }

  /** Replacing the breakers and then stripping leaves a clean field. */
  lemma CleanField(shown: string)
    ensures var r := Strip(ReplaceBreakers(shown));
            NoBreakers(r) && NoEdgeSpace(r)
  {
    var clean := ReplaceBreakers(shown);
    assert NoBreakers(clean);
  }

  /** A text already fit for a field is printed unchanged, so sanitising
      is idempotent. */
  lemma {:induction false} FormatListValueIdempotent(s: string)
    ensures FormatListValue(Text(FormatListValue(Text(s)))) == FormatListValue(Text(s))
  {
    var t := FormatListValue(Text(s));
    CleanField(s);
    assert ReplaceBreakers(t) == t;
    StripClean(t);
  }

  lemma StripClean(t: string)
    requires NoEdgeSpace(t)
    ensures Strip(t) == t
  {
  }

  /** The fields of one hash line, in key order. */
  function ListFields(entries: Entries): (r: seq<string>)
    ensures |r| == |entries|
    ensures forall i :: 0 <= i < |entries| ==> r[i] == FormatListValue(entries[i].1)
  {
    seq(|entries|, i requires 0 <= i < |entries| => FormatListValue(entries[i].1))
  }

  /** No field of a list line holds a tab, whatever the values. */
  lemma FieldsHaveNoTab(entries: Entries)
    ensures forall i :: 0 <= i < |entries| ==> '\t' !in ListFields(entries)[i]
  {
  }

  /** `format_list_item`: a hash becomes its values joined by tabs; anything
      else becomes its `to_s`, supplied as `show`. */
  function FormatListItem(item: Datum, show: Datum -> string): (r: string)
    ensures item.HashDatum? ==> r == Join(ListFields(item.entries), "\t")
    ensures item.HashDatum? && |item.entries| > 0 ==> Split(r, '\t') == ListFields(item.entries)
    ensures !item.HashDatum? ==> r == show(item)
  {
    match item
    case HashDatum(entries) =>
      var fields := ListFields(entries);
      FieldsHaveNoTab(entries);
      if |entries| > 0 then
        SplitJoin(fields, '\t');
        Join(fields, "\t")
      else Join(fields, "\t")
    case _ => show(item)
  }

  /** `output_list`: one line per array element, or one line for a hash. */
  function OutputList(data: Data, show: Datum -> string): (r: Rendering)
    ensures r.Lines?
    ensures IsEmpty(data) ==> r.lines == [NoDataLine]
    ensures data.ArrayData? && |data.items| > 0 ==>
              |r.lines| == |data.items|
              && forall i :: 0 <= i < |data.items| ==> r.lines[i] == FormatListItem(data.items[i], show)
    ensures data.HashData? && |data.entries| > 0 ==>
              r.lines == [FormatListItem(HashDatum(data.entries), show)]
  {
    if IsEmpty(data) then Lines([NoDataLine])
    else match data
      case ArrayData(items) =>
        Lines(seq(|items|, i requires 0 <= i < |items| => FormatListItem(items[i], show)))
      case HashData(entries) => Lines([FormatListItem(HashDatum(entries), show)])
  }

  /** `output`: dispatch on the format; an unknown format prints `inspect`. */
  function Output(format: string, data: Data, headers: Option<seq<string>>,
                  show: Datum -> string, showPair: (Key, Value) -> string): (r: Rendering)
    ensures format == "json" ==> r == Json(data)
    ensures format == "table" ==> r == OutputTable(data, headers, showPair)
    ensures format == "list" ==> r == OutputList(data, show)
    ensures format !in {"json", "table", "list"} ==> r == Inspect(data)
  {
    if format == "json" then Json(data)
    else if format == "table" then OutputTable(data, headers, showPair)
    else if format == "list" then OutputList(data, show)
    else Inspect(data)
  }

  /** Empty data gives the same single notice in table and list format. */
  lemma EmptyDataNotice(data: Data, headers: Option<seq<string>>, show: Datum -> string, showPair: (Key, Value) -> string)
    requires IsEmpty(data)
    ensures Output("table", data, headers, show, showPair) == Output("list", data, headers, show, showPair)
            == Lines([NoDataLine])
  {
  }
}
