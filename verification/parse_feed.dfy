/**
 * Template-driven extraction of records from a feed page (the feed maker's
 * `ParseFeed`). Each feed template names a start tag; when the tag occurs in
 * the page, its field templates run in order against the text after the
 * first occurrence and build one JSON record. Field values are template
 * constants, sums and differences of two fields already stored, or the text
 * between an opening and a closing marker, kept as a string or parsed as a
 * Java `int`.
 */
module ParseFeed {
  import opened Wrappers
  import opened JavaText

  // ---------------------------------------------------------------------------
  // Templates and records
  // ---------------------------------------------------------------------------

  /** What a field template does: the source's `field_type` with the strings it uses. */
  datatype FieldKind =
    | FixedInt(n: Int32)                       // "fixed_int": the constant `fixed_int`
    | FixedString(text: string)                // "fixed_string": the constant `fixed_string`
    | CalcMinus(left: string, right: string)   // "calc_minus": field `s1` minus field `s2`
    | CalcPlus(left: string, right: string)    // "calc_plus": field `s1` plus field `s2`
    | ScanInt(open: string, close: string)     // "int": text between `s1` and `s2`, parsed
    | ScanString(open: string, close: string)  // "string": text between `s1` and `s2`

  datatype FieldTemplate = FieldTemplate(name: string, kind: FieldKind)

  datatype FeedTemplate = FeedTemplate(tagStart: string, fields: seq<FieldTemplate>)

  /** The values a record holds: Java `Integer`s and `String`s. */
  datatype JsonValue = JInt(i: Int32) | JString(s: string)

  /** A parsed record (a `JsonObject`): field name to value. */
  type Record = map<string, JsonValue>

  /** Exceptions that end a whole parse. */
  datatype ParseError =
    | MissingOperand(operand: string)   // `getInteger` of an absent field, unboxed: NullPointerException
    | StringOperand(operand: string)    // `getInteger` of a string field: ClassCastException
    | UnknownFeedType(feedType: string) // no templates for the feed type: NullPointerException

  /** The longest field text the scanner accepts. */
  const MAX_FIELD_LENGTH: nat := 40

  function FieldNames(fields: seq<FieldTemplate>): set<string> {
    set i | 0 <= i < |fields| :: fields[i].name
  }

  /** Field `name` holds an `int`. */
  predicate HoldsInt(record: Record, name: string) {
    name in record && record[name].JInt?
  }

  // ---------------------------------------------------------------------------
  // Scanning a field out of the page
  // ---------------------------------------------------------------------------

  /**
   * Where a scanned field lies: `begin` is just after the opening marker,
   * `end` at the closing marker.
   */
  datatype Scan =
    | NoOpen
    | NoClose(begin: nat)
    | TooLong(begin: nat, end: nat)
    | Found(begin: nat, end: nat)

  /**
   * The opening marker is the first at or after `from`; the closing marker
   * is the first at or after the end of the opening one; text longer than
   * `MAX_FIELD_LENGTH` is refused.
   */
  function ScanField(page: string, from: nat, open: string, close: string): (r: Scan)
    requires from <= |page|
    ensures r.NoOpen? <==> AbsentFrom(page, open, from)
    ensures !r.NoOpen? ==> |open| <= r.begin <= |page| && FirstAtOrAfter(page, open, from, r.begin - |open|)
    ensures r.NoClose? <==> !r.NoOpen? && AbsentFrom(page, close, r.begin)
    ensures r.TooLong? || r.Found? ==> FirstAtOrAfter(page, close, r.begin, r.end) && r.end <= |page|
    ensures r.TooLong? ==> r.end - r.begin > MAX_FIELD_LENGTH
    ensures r.Found? ==> r.end - r.begin <= MAX_FIELD_LENGTH
  {
    var start := IndexOf(page, open, from);
    if start < 0 then NoOpen
    else
      var begin := start + |open|;
      var end := IndexOf(page, close, begin);
      if end < 0 then NoClose(begin)
      else if end - begin > MAX_FIELD_LENGTH then TooLong(begin, end)
      else Found(begin, end)
  }

  /** The scan is determined by its contract: any scan meeting it is `ScanField`'s. */
  lemma ScanFieldIsFirstMatch(page: string, from: nat, open: string, close: string, begin: nat, end: nat)
    requires from <= |page|
    requires |open| <= begin && FirstAtOrAfter(page, open, from, begin - |open|)
    requires FirstAtOrAfter(page, close, begin, end)
    ensures end - begin <= MAX_FIELD_LENGTH ==> ScanField(page, from, open, close) == Found(begin, end)
    ensures end - begin > MAX_FIELD_LENGTH ==> ScanField(page, from, open, close) == TooLong(begin, end)
  {
    var r := ScanField(page, from, open, close);
    FirstAtOrAfterUnique(page, open, from, r.begin - |open|, begin - |open|);
    FirstAtOrAfterUnique(page, close, begin, r.end, end);
  }

  /** The text between the markers, when the scan finds it and it is short enough. */
  function FieldText(page: string, from: nat, open: string, close: string): (r: Option<string>)
    requires from <= |page|
    ensures var s := ScanField(page, from, open, close);
      (r.Some? <==> s.Found?) && (r.Some? ==> r.value == page[s.begin..s.end] && |r.value| <= MAX_FIELD_LENGTH)
  {
    var s := ScanField(page, from, open, close);
    if s.Found? then Some(page[s.begin..s.end]) else None
  }

  /**
   * The field text read off the marker positions: with the first opening
   * marker at or after `from` ending at `begin`, and the first closing
   * marker after it at `end`, the text is `page[begin..end]` when it is at
   * most `MAX_FIELD_LENGTH` long and there is none when it is longer.
   */
  lemma FieldTextAt(page: string, from: nat, open: string, close: string, begin: nat, end: nat)
    requires from <= |page|
    requires |open| <= begin && FirstAtOrAfter(page, open, from, begin - |open|)
    requires FirstAtOrAfter(page, close, begin, end)
    ensures end - begin <= MAX_FIELD_LENGTH ==> FieldText(page, from, open, close) == Some(page[begin..end])
    ensures end - begin > MAX_FIELD_LENGTH ==> FieldText(page, from, open, close) == None
  {
    ScanFieldIsFirstMatch(page, from, open, close, begin, end);
  }

  /** Without an opening marker, or without a closing one after it, there is no field text. */
  lemma FieldTextMissingMarker(page: string, from: nat, open: string, close: string, begin: nat)
    requires from <= |page|
    requires AbsentFrom(page, open, from)
      || (|open| <= begin && FirstAtOrAfter(page, open, from, begin - |open|) && AbsentFrom(page, close, begin))
    ensures FieldText(page, from, open, close) == None
  {
    var s := ScanField(page, from, open, close);
    if !AbsentFrom(page, open, from) {
      FirstAtOrAfterUnique(page, open, from, s.begin - |open|, begin - |open|);
    }
  }

  /** What a page offers a template: the field text for each pair of markers. */
  type Scanner = (string, string) -> Option<string>

  /** The scanner of a page for the template whose tag was found at `from`. */
  function PageScanner(page: string, from: nat): (scan: Scanner)
    requires from <= |page|
    ensures forall open, close :: scan(open, close) == FieldText(page, from, open, close)
  {
    (open, close) => FieldText(page, from, open, close)
  }

  /** `Integer.parseInt` of a field text, if there is one. */
  function IntText(text: Option<string>): (r: Option<Int32>)
    ensures r.Some? ==> text.Some? && ParseSigned(text.value, INT32_MIN, INT32_MAX) == r
    ensures text.Some? && ParseSigned(text.value, INT32_MIN, INT32_MAX).Some? ==> r.Some?
  {
    if text.Some? then ParseSigned(text.value, INT32_MIN, INT32_MAX) else None
  }

  // ---------------------------------------------------------------------------
  // Applying field templates
  // ---------------------------------------------------------------------------

  /** `json_record.getInteger(name)` unboxed to an `int`. */
  function Operand(record: Record, name: string): (r: Result<Int32, ParseError>)
    ensures r.Success? <==> HoldsInt(record, name)
    ensures r.Success? ==> record[name] == JInt(r.value)
    ensures r.Failure? ==> r.error == (if name in record then StringOperand(name) else MissingOperand(name))
  {
    if name !in record then Failure(MissingOperand(name))
    else match record[name]
      case JInt(v) => Success(v)
      case JString(_) => Failure(StringOperand(name))
  }

  /** The value a constant field template stores. */
  function FixedValue(kind: FieldKind): JsonValue
    requires kind.FixedInt? || kind.FixedString?
  {
    if kind.FixedInt? then JInt(kind.n) else JString(kind.text)
  }

  /** The record with a parsed number stored under `name`, or unchanged when nothing parsed. */
  function StoreParsed(record: Record, name: string, v: Option<Int32>): Record {
    if v.Some? then record[name := JInt(v.value)] else record
  }

  /**
   * One field template applied to a record. A scanned field whose text is
   * missing, too long or not a number leaves the record as it was; only a
   * calculation over a field that is not an `int` throws.
   */
  function ApplyField(scan: Scanner, record: Record, f: FieldTemplate): (r: Result<Record, ParseError>)
    ensures r.Failure? ==> (f.kind.CalcMinus? || f.kind.CalcPlus?) && (r.error.MissingOperand? || r.error.StringOperand?)
    ensures f.kind.CalcMinus? || f.kind.CalcPlus? ==>
      (r.Success? <==> HoldsInt(record, f.kind.left) && HoldsInt(record, f.kind.right))
  {
    match f.kind
    case FixedInt(n) => Success(record[f.name := JInt(n)])
    case FixedString(text) => Success(record[f.name := JString(text)])
    case CalcMinus(left, right) =>
      var v1 :- Operand(record, left);
      var v2 :- Operand(record, right);
      Success(record[f.name := JInt(Wrap32(v1 - v2))])
    case CalcPlus(left, right) =>
      var v1 :- Operand(record, left);
      var v2 :- Operand(record, right);
      Success(record[f.name := JInt(Wrap32(v1 + v2))])
    case ScanInt(open, close) =>
      (match IntText(scan(open, close))
      case Some(v) => Success(record[f.name := JInt(v)])
      case None => Success(record))
    case ScanString(open, close) =>
      (match scan(open, close)
      case Some(text) => Success(record[f.name := JString(text)])
      case None => Success(record))
  }

  /** A field template writes its own name and nothing else. */
  lemma ApplyFieldFrame(scan: Scanner, record: Record, f: FieldTemplate)
    ensures var r := ApplyField(scan, record, f);
      r.Success? ==>
        r.value.Keys <= record.Keys + {f.name} &&
        forall k :: k in record && k != f.name ==> k in r.value && r.value[k] == record[k]
  {
  }

  /** A constant field stores its constant whatever the page holds. */
  lemma FixedFieldStored(scan: Scanner, record: Record, f: FieldTemplate)
    requires f.kind.FixedInt? || f.kind.FixedString?
    ensures ApplyField(scan, record, f) == Success(record[f.name := FixedValue(f.kind)])
  {
  }

  /** A scanned field is stored exactly when its text is found (and, for an `int`, parses). */
  lemma ScannedFieldStored(scan: Scanner, record: Record, f: FieldTemplate)
    requires f.kind.ScanInt? || f.kind.ScanString?
    ensures var r := ApplyField(scan, record, f);
      var text := scan(f.kind.open, f.kind.close);
      r.Success? &&
      (f.kind.ScanString? ==> r.value == if text.Some? then record[f.name := JString(text.value)] else record) &&
      (f.kind.ScanInt? ==> r.value == StoreParsed(record, f.name, IntText(text)))
  {
  }

  /** A `calc_minus` over two `int` fields stores their difference in `int` arithmetic. */
  lemma CalcMinusStored(scan: Scanner, record: Record, name: string, left: string, right: string)
    requires HoldsInt(record, left) && HoldsInt(record, right)
    ensures ApplyField(scan, record, FieldTemplate(name, CalcMinus(left, right))) ==
      Success(record[name := JInt(Wrap32(record[left].i - record[right].i))])
  {
  }

  /** A `calc_plus` over two `int` fields stores their sum in `int` arithmetic. */
  lemma CalcPlusStored(scan: Scanner, record: Record, name: string, left: string, right: string)
    requires HoldsInt(record, left) && HoldsInt(record, right)
    ensures ApplyField(scan, record, FieldTemplate(name, CalcPlus(left, right))) ==
      Success(record[name := JInt(Wrap32(record[left].i + record[right].i))])
  {
  }

  /**
   * A calculation over a field that is not an `int` throws, naming the left
   * operand when it is the bad one (it is read first), else the right.
   */
  lemma CalcThrows(scan: Scanner, record: Record, f: FieldTemplate)
    requires f.kind.CalcMinus? || f.kind.CalcPlus?
    requires !HoldsInt(record, f.kind.left) || !HoldsInt(record, f.kind.right)
    ensures var bad := if HoldsInt(record, f.kind.left) then f.kind.right else f.kind.left;
      ApplyField(scan, record, f) == Failure(if bad in record then StringOperand(bad) else MissingOperand(bad))
  {
  }

  /** The field templates of one feed template, in order, stopping at the first exception. */
  function ApplyFields(scan: Scanner, record: Record, fields: seq<FieldTemplate>): (r: Result<Record, ParseError>)
    ensures r.Success? ==> r.value.Keys <= record.Keys + FieldNames(fields)
    decreases |fields|
  {
    if |fields| == 0 then Success(record)
    else
      assert FieldNames(fields) == {fields[0].name} + FieldNames(fields[1..]) by {
        assert forall i :: 0 < i < |fields| ==> fields[i] == fields[1..][i - 1];
      }
      ApplyFieldFrame(scan, record, fields[0]);
      var next :- ApplyField(scan, record, fields[0]);
      ApplyFields(scan, next, fields[1..])
  }

  /** `ApplyFields` takes one field template at a time. */
  lemma ApplyFieldsStep(scan: Scanner, record: Record, fields: seq<FieldTemplate>)
    requires |fields| > 0
    ensures ApplyFields(scan, record, fields) ==
      match ApplyField(scan, record, fields[0])
      case Failure(e) => Failure(e)
      case Success(next) => ApplyFields(scan, next, fields[1..])
  {
  }

  /** Two field templates of which the first completes: the outcome is the second's. */
  lemma LastOfTwo(scan: Scanner, record: Record, f: seq<FieldTemplate>, m1: Record)
    requires |f| == 2
    requires ApplyField(scan, record, f[0]) == Success(m1)
    ensures ApplyFields(scan, record, f) == ApplyField(scan, m1, f[1])
  {
    ApplyFieldsStep(scan, record, f);
    ApplyFieldsStep(scan, m1, f[1..]);
    assert f[1..][1..] == [];
  }

  /**
   * Four field templates of which the first three complete: the outcome is
   * the fourth applied to what the first three stored.
   */
  lemma LastOfFour(scan: Scanner, record: Record, f: seq<FieldTemplate>, m1: Record, m2: Record, m3: Record)
    requires |f| == 4
    requires ApplyField(scan, record, f[0]) == Success(m1)
    requires ApplyField(scan, m1, f[1]) == Success(m2)
    requires ApplyField(scan, m2, f[2]) == Success(m3)
    ensures ApplyFields(scan, record, f) == ApplyField(scan, m3, f[3])
  {
    ApplyFieldsStep(scan, record, f);
    ApplyFieldsStep(scan, m1, f[1..]);
    assert f[1..][1..] == f[2..];
    ApplyFieldsStep(scan, m2, f[2..]);
    assert f[2..][1..] == f[3..];
    ApplyFieldsStep(scan, m3, f[3..]);
    assert f[3..][1..] == [];
  }

  /** Fields no template names keep their values. */
  lemma {:induction false} ApplyFieldsFrame(scan: Scanner, record: Record, fields: seq<FieldTemplate>, k: string)
    requires k !in FieldNames(fields)
    ensures var r := ApplyFields(scan, record, fields);
      r.Success? ==> (k in r.value <==> k in record) && (k in record ==> r.value[k] == record[k])
    decreases |fields|
  {
    if |fields| > 0 {
      assert fields[0].name in FieldNames(fields);
      var next := ApplyField(scan, record, fields[0]);
      ApplyFieldFrame(scan, record, fields[0]);
      if next.Success? {
        assert FieldNames(fields[1..]) <= FieldNames(fields) by {
          assert forall i :: 0 <= i < |fields| - 1 ==> fields[1..][i] == fields[i + 1];
        }
        ApplyFieldsFrame(scan, next.value, fields[1..], k);
      }
    }
  }

  /**
   * A constant field is set to its constant whatever the page holds, unless
   * a later field template writes the same name.
   */
  lemma {:induction false} FixedFieldWins(scan: Scanner, record: Record, fields: seq<FieldTemplate>, i: nat)
    requires i < |fields| && (fields[i].kind.FixedInt? || fields[i].kind.FixedString?)
    requires forall j :: i < j < |fields| ==> fields[j].name != fields[i].name
    ensures var r := ApplyFields(scan, record, fields);
      r.Success? ==>
        fields[i].name in r.value &&
        r.value[fields[i].name] == (if fields[i].kind.FixedInt? then JInt(fields[i].kind.n) else JString(fields[i].kind.text))
    decreases |fields|
  {
    var next := ApplyField(scan, record, fields[0]);
    if next.Success? {
      if i == 0 {
        FixedFieldStored(scan, record, fields[0]);
        assert fields[0].name !in FieldNames(fields[1..]);
        ApplyFieldsFrame(scan, next.value, fields[1..], fields[0].name);
      } else {
        FixedFieldWins(scan, next.value, fields[1..], i - 1);
      }
    }
  }

  /** Without calculations nothing can throw. */
  lemma {:induction false} NoCalcNoFailure(scan: Scanner, record: Record, fields: seq<FieldTemplate>)
    requires forall i :: 0 <= i < |fields| ==> !fields[i].kind.CalcMinus? && !fields[i].kind.CalcPlus?
    ensures ApplyFields(scan, record, fields).Success?
    decreases |fields|
  {
    if |fields| > 0 {
      var next := ApplyField(scan, record, fields[0]);
      NoCalcNoFailure(scan, next.value, fields[1..]);
    }
  }

  // ---------------------------------------------------------------------------
  // Whole templates and the page
  // ---------------------------------------------------------------------------

  /**
   * The record one feed template yields: nothing when its tag is absent,
   * else its fields applied to an empty record, scanning after the first
   * occurrence of the tag.
   */
  function ParseRecord(page: string, t: FeedTemplate): (r: Option<Result<Record, ParseError>>)
    ensures r.None? <==> AbsentFrom(page, t.tagStart, 0)
    ensures r.Some? && r.value.Success? ==> r.value.value.Keys <= FieldNames(t.fields)
  {
    var recStart := IndexOf(page, t.tagStart, 0);
    if recStart < 0 then None
    else Some(ApplyFields(PageScanner(page, recStart), map[], t.fields))
  }

  /** What one template yields: nothing when its tag is absent, else its record or its exception. */
  type Outcome = Option<Result<Record, ParseError>>

  predicate Throws(o: Outcome) {
    o.Some? && o.value.Failure?
  }

  /**
   * The loop of `parse_array` over the templates, given what each one
   * yields: skip the absent ones, stop at the first exception, and collect
   * the records in order.
   */
  function Gather(outcome: FeedTemplate -> Outcome, templates: seq<FeedTemplate>): (r: Result<seq<Record>, ParseError>)
    ensures r.Success? ==> |r.value| <= |templates|
    decreases |templates|
  {
    if |templates| == 0 then Success([])
    else match outcome(templates[0])
      case None => Gather(outcome, templates[1..])
      case Some(Failure(e)) => Failure(e)
      case Some(Success(record)) =>
        var rest :- Gather(outcome, templates[1..]);
        Success([record] + rest)
  }

  /** `parse_array`: one record per template whose tag occurs, in template order. */
  function ParseArray(page: string, templates: seq<FeedTemplate>): (r: Result<seq<Record>, ParseError>)
    ensures r.Success? ==> |r.value| <= |templates|
  {
    Gather(t => ParseRecord(page, t), templates)
  }

  /** The templates whose tag occurs in the page, in order. */
  function Matching(page: string, templates: seq<FeedTemplate>): (r: seq<FeedTemplate>)
    ensures |r| <= |templates|
    ensures forall i :: 0 <= i < |r| ==> r[i] in templates && !AbsentFrom(page, r[i].tagStart, 0)
    ensures forall t :: t in templates && !AbsentFrom(page, t.tagStart, 0) ==> t in r
  {
    if |templates| == 0 then []
    else
      assert forall t :: t in templates ==> t == templates[0] || t in templates[1..];
      var rest := Matching(page, templates[1..]);
      if AbsentFrom(page, templates[0].tagStart, 0) then rest else [templates[0]] + rest
  }

  /** `outcome` yields nothing exactly for the templates whose tag is absent from `page`. */
  ghost predicate SkipsAbsent(outcome: FeedTemplate -> Outcome, page: string) {
    forall t :: outcome(t).None? <==> AbsentFrom(page, t.tagStart, 0)
  }

  /** A successful gather holds the records of the matching templates, in order. */
  lemma {:induction false} GatherRecords(outcome: FeedTemplate -> Outcome, page: string, templates: seq<FeedTemplate>)
    requires SkipsAbsent(outcome, page)
    ensures var r := Gather(outcome, templates);
      var found := Matching(page, templates);
      r.Success? ==>
        |r.value| == |found| &&
        forall i :: 0 <= i < |found| ==> outcome(found[i]) == Some(Success(r.value[i]))
    decreases |templates|
  {
    if |templates| > 0 {
      GatherRecords(outcome, page, templates[1..]);
      if !AbsentFrom(page, templates[0].tagStart, 0) {
        var found := Matching(page, templates);
        var foundRest := Matching(page, templates[1..]);
        assert forall i :: 0 < i < |found| ==> found[i] == foundRest[i - 1];
      }
    }
  }

  /** `found[i]` is the first of `found` that throws, and it throws `e`. */
  ghost predicate FirstThrowAt(outcome: FeedTemplate -> Outcome, found: seq<FeedTemplate>, e: ParseError, i: int) {
    0 <= i < |found| && outcome(found[i]) == Some(Failure(e)) &&
    forall j :: 0 <= j < i ==> !Throws(outcome(found[j]))
  }

  ghost predicate FirstThrowAmong(outcome: FeedTemplate -> Outcome, found: seq<FeedTemplate>, e: ParseError) {
    exists i :: FirstThrowAt(outcome, found, e, i)
  }

  /** A template that does not throw, put in front, moves the first throw back by one. */
  lemma FirstThrowShifts(outcome: FeedTemplate -> Outcome, t: FeedTemplate, found: seq<FeedTemplate>, e: ParseError, k: int)
    requires !Throws(outcome(t)) && FirstThrowAt(outcome, found, e, k)
    ensures FirstThrowAt(outcome, [t] + found, e, k + 1)
  {
    assert forall j :: 0 < j < |found| + 1 ==> ([t] + found)[j] == found[j - 1];
  }

  /** A failing gather carries the exception of the first matching template that throws. */
  lemma {:induction false} GatherFirstFailure(outcome: FeedTemplate -> Outcome, page: string, templates: seq<FeedTemplate>)
    requires SkipsAbsent(outcome, page)
    ensures var r := Gather(outcome, templates);
      r.Failure? ==> FirstThrowAmong(outcome, Matching(page, templates), r.error)
    decreases |templates|
  {
    var r := Gather(outcome, templates);
    if |templates| > 0 && r.Failure? {
      var t := templates[0];
      var found := Matching(page, templates);
      var foundRest := Matching(page, templates[1..]);
      GatherFirstFailure(outcome, page, templates[1..]);
      if AbsentFrom(page, t.tagStart, 0) {
        assert r == Gather(outcome, templates[1..]);
        assert found == foundRest;
      } else {
        assert found == [t] + foundRest;
        if outcome(t).value.Success? {
          assert r == Gather(outcome, templates[1..]);
          var k :| FirstThrowAt(outcome, foundRest, r.error, k);
          FirstThrowShifts(outcome, t, foundRest, r.error, k);
        } else {
          assert FirstThrowAt(outcome, found, r.error, 0);
        }
      }
    }
  }

  lemma RecordsSkipAbsent(page: string)
    ensures SkipsAbsent(t => ParseRecord(page, t), page)
  {
  }

  /**
   * The output of `parse_array` is the records of the matching templates in
   * order; it fails exactly when one of them throws, and then with the
   * exception of the first that does.
   */
  lemma ParseArrayRecords(page: string, templates: seq<FeedTemplate>)
    ensures var r := ParseArray(page, templates);
      var found := Matching(page, templates);
      r.Success? ==>
        |r.value| == |found| &&
        forall i :: 0 <= i < |found| ==> ParseRecord(page, found[i]) == Some(Success(r.value[i]))
    ensures var r := ParseArray(page, templates);
      r.Failure? ==> FirstThrowAmong(t => ParseRecord(page, t), Matching(page, templates), r.error)
  {
    RecordsSkipAbsent(page);
    GatherRecords(t => ParseRecord(page, t), page, templates);
    GatherFirstFailure(t => ParseRecord(page, t), page, templates);
  }

  /** `parse_array` fails exactly when some template whose tag occurs throws. */
  lemma ParseArrayFailsIff(page: string, templates: seq<FeedTemplate>)
    ensures var found := Matching(page, templates);
      ParseArray(page, templates).Failure? <==> exists i :: 0 <= i < |found| && Throws(ParseRecord(page, found[i]))
  {
    var r := ParseArray(page, templates);
    var found := Matching(page, templates);
    ParseArrayRecords(page, templates);
    if r.Failure? {
      var outcome := t => ParseRecord(page, t);
      var i :| FirstThrowAt(outcome, found, r.error, i);
      assert outcome(found[i]) == ParseRecord(page, found[i]);
      assert 0 <= i < |found| && Throws(ParseRecord(page, found[i]));
    } else {
      assert forall i :: 0 <= i < |found| ==> !Throws(ParseRecord(page, found[i]));
    }
  }

  /** Every record holds only names its template declares. */
  lemma ParsedKeysDeclared(page: string, templates: seq<FeedTemplate>)
    ensures var r := ParseArray(page, templates);
      var found := Matching(page, templates);
      r.Success? ==>
        |r.value| == |found| &&
        forall i :: 0 <= i < |r.value| && i < |found| ==> r.value[i].Keys <= FieldNames(found[i].fields)
  {
    ParseArrayRecords(page, templates);
  }

  // ---------------------------------------------------------------------------
  // The built-in templates
  // ---------------------------------------------------------------------------

  /**
   * A `cam_park_local` template: the tag doubles as the parking id, the
   * capacity is a constant, the free spaces are scanned and the occupied
   * spaces are capacity minus free.
   */
  function LocalTemplate(tag: string, capacity: Int32): FeedTemplate {
    FeedTemplate(tag, [
      FieldTemplate("parking_id", FixedString(tag)),
      FieldTemplate("spaces_capacity", FixedInt(capacity)),
      FieldTemplate("spaces_free", ScanInt("<strong>", " spaces")),
      FieldTemplate("spaces_occupied", CalcMinus("spaces_capacity", "spaces_free"))])
  }

  /**
   * A `cam_park_rss` template: capacity and occupied spaces are scanned and
   * the free spaces are capacity minus occupied.
   */
  function RssTemplate(tag: string, parkingId: string): FeedTemplate {
    FeedTemplate(tag, [
      FieldTemplate("parking_id", FixedString(parkingId)),
      FieldTemplate("spaces_capacity", ScanInt("taken out of ", " capacity")),
      FieldTemplate("spaces_occupied", ScanInt("There are ", " spaces taken ")),
      FieldTemplate("spaces_free", CalcMinus("spaces_capacity", "spaces_occupied"))])
  }

  const CamParkLocal: seq<FeedTemplate> := [
    LocalTemplate("grafton-east-car-park", 780),
    LocalTemplate("grafton-west-car-park", 280),
    LocalTemplate("grand-arcade-car-park", 890),
    LocalTemplate("park-street-car-park", 375),
    LocalTemplate("queen-anne-terrace-car-park", 540)]

  const CamParkRss: seq<FeedTemplate> := [
    RssTemplate("Grand Arcade", "grand-arcade-car-park"),
    RssTemplate("Grafton East", "grafton-east-car-park"),
    RssTemplate("Grafton West", "grafton-west-car-park"),
    RssTemplate("Park Street", "park-street-car-park"),
    RssTemplate("Queen Anne", "queen-anne-terrace-car-park"),
    RssTemplate("Madingley Road", "madingley-road-park-and-ride"),
    RssTemplate("Trumpington", "trumpington-park-and-ride"),
    RssTemplate("Babraham", "babraham-park-and-ride"),
    RssTemplate("Milton", "milton-park-and-ride"),
    RssTemplate("Newmarket Rd Front", "newmarket-road-front-park-and-ride"),
    RssTemplate("Newmarket Rd Rear", "newmarket-road-rear-park-and-ride")]

  /** `feed_templates.get(feed_type)`: the templates of a feed type, if it has any. */
  function TemplatesFor(feedType: string): (r: Option<seq<FeedTemplate>>)
    ensures r.Some? <==> feedType == "cam_park_local" || feedType == "cam_park_rss"
  {
    if feedType == "cam_park_local" then Some(CamParkLocal)
    else if feedType == "cam_park_rss" then Some(CamParkRss)
    else None
  }

  /** A parser built for `feedType` applied to a page. */
  function ParsePage(feedType: string, page: string): (r: Result<seq<Record>, ParseError>)
    ensures TemplatesFor(feedType).None? <==> r == Failure(UnknownFeedType(feedType))
  {
    match TemplatesFor(feedType)
    case None => Failure(UnknownFeedType(feedType))
    case Some(templates) =>
      var r := ParseArray(page, templates);
      assert r.Failure? ==> !r.error.UnknownFeedType? by {
        ParseArrayRecords(page, templates);
        if r.Failure? {
          var i :| FirstThrowAt(t => ParseRecord(page, t), Matching(page, templates), r.error, i);
          UnknownNeverThrownByFields(page, Matching(page, templates)[i]);
        }
      }
      r
  }

  /** Field templates only throw operand errors. */
  lemma UnknownNeverThrownByFields(page: string, t: FeedTemplate)
    ensures var r := ParseRecord(page, t);
      r.Some? && r.value.Failure? ==> !r.value.error.UnknownFeedType?
  {
    if !AbsentFrom(page, t.tagStart, 0) {
      FieldsThrowOperandErrors(PageScanner(page, IndexOf(page, t.tagStart, 0)), map[], t.fields);
    }
  }

  /** Field templates throw only operand exceptions. */
  lemma {:induction false} FieldsThrowOperandErrors(scan: Scanner, record: Record, fields: seq<FieldTemplate>)
    ensures var r := ApplyFields(scan, record, fields);
      r.Failure? ==> r.error.MissingOperand? || r.error.StringOperand?
    decreases |fields|
  {
    if |fields| > 0 {
      var next := ApplyField(scan, record, fields[0]);
      if next.Success? {
        FieldsThrowOperandErrors(scan, next.value, fields[1..]);
      }
    }
  }

  // ---------------------------------------------------------------------------
  // Arithmetic fields
  // ---------------------------------------------------------------------------

  /** `Wrap32` depends only on its argument modulo 2^32. */
  lemma WrapCongruent(x: int, y: int)
    requires (x - y) % 0x1_0000_0000 == 0
    ensures Wrap32(x) == Wrap32(y)
  {
    var m := 0x1_0000_0000;
    var q := (x - y) / m;
    assert x - INT32_MIN == (y - INT32_MIN) + q * m;
  }

  /**
   * A `calc_plus` of a `calc_minus` result and its right operand gives the
   * left operand back, even when the subtraction wraps around.
   */
  lemma CalcPlusUndoesMinus(scan: Scanner, record: Record, fields: seq<FieldTemplate>, a: string, b: string, d: string, e: string)
    requires HoldsInt(record, a) && HoldsInt(record, b)
    requires d != a && d != b && e != d
    requires fields == [FieldTemplate(d, CalcMinus(a, b)), FieldTemplate(e, CalcPlus(d, b))]
    ensures var r := ApplyFields(scan, record, fields);
      r.Success? && e in r.value && r.value[e] == record[a]
  {
    var x: int, y: int := record[a].i, record[b].i;
    CalcMinusStored(scan, record, d, a, b);
    var first := record[d := JInt(Wrap32(x - y))];
    assert first[b] == record[b];
    CalcPlusStored(scan, first, e, d, b);
    LastOfTwo(scan, record, fields, first);
    WrapCongruent(Wrap32(x - y) + y, x);
  }

  // ---------------------------------------------------------------------------
  // What the built-in templates yield
  // ---------------------------------------------------------------------------

  /** Four field names, none repeated. */
  predicate Distinct4(a: string, b: string, c: string, d: string) {
    a != b && a != c && a != d && b != c && b != d && c != d
  }

  /**
   * `calc_minus` as the last field template: the difference is stored when
   * both operands were stored as numbers, else the first missing one is
   * named.
   */
  lemma DifferenceStored(scan: Scanner, prefix: Record, minuend: Option<Int32>, subtrahend: Option<Int32>,
                         name: string, left: string, right: string)
    requires name != left && name != right && left != right
    requires prefix.Keys !! {name, left, right}
    ensures var record := StoreParsed(StoreParsed(prefix, left, minuend), right, subtrahend);
      ApplyField(scan, record, FieldTemplate(name, CalcMinus(left, right))) ==
        if minuend.None? then Failure(MissingOperand(left))
        else if subtrahend.None? then Failure(MissingOperand(right))
        else Success(prefix[left := JInt(minuend.value)][right := JInt(subtrahend.value)]
                           [name := JInt(Wrap32(minuend.value as int - subtrahend.value))])
  {
    var record := StoreParsed(StoreParsed(prefix, left, minuend), right, subtrahend);
    var f := FieldTemplate(name, CalcMinus(left, right));
    if minuend.Some? && subtrahend.Some? {
      CalcMinusStored(scan, record, name, left, right);
    } else {
      CalcThrows(scan, record, f);
    }
  }

  /**
   * Constant id, constant capacity, scanned free spaces and occupied as
   * their difference: the shape of every `cam_park_local` template. The
   * record is complete when the free spaces parse; otherwise the
   * difference throws for want of them.
   */
  lemma FixedCapacityRecord(scan: Scanner, empty: Record, f: seq<FieldTemplate>,
                            id: string, capacity: Int32, open: string, close: string,
                            idName: string, capName: string, freeName: string, occName: string)
    requires Distinct4(idName, capName, freeName, occName) && empty == map[]
    requires f == [FieldTemplate(idName, FixedString(id)), FieldTemplate(capName, FixedInt(capacity)),
                   FieldTemplate(freeName, ScanInt(open, close)), FieldTemplate(occName, CalcMinus(capName, freeName))]
    ensures var free := IntText(scan(open, close));
      ApplyFields(scan, empty, f) ==
        if free.None? then Failure(MissingOperand(freeName))
        else Success(map[idName := JString(id), capName := JInt(capacity), freeName := JInt(free.value),
                         occName := JInt(Wrap32(capacity as int - free.value))])
  {
    FixedOperands(scan, empty, f, id, capacity, open, close, idName, capName, freeName, occName);
    LocalDifference(scan, id, capacity, IntText(scan(open, close)), idName, capName, freeName, occName);
  }

  /** The first three fields of a `cam_park_local` template store the id, the capacity and the free count if it parses. */
  lemma FixedOperands(scan: Scanner, empty: Record, f: seq<FieldTemplate>,
                      id: string, capacity: Int32, open: string, close: string,
                      idName: string, capName: string, freeName: string, occName: string)
    requires Distinct4(idName, capName, freeName, occName) && empty == map[]
    requires f == [FieldTemplate(idName, FixedString(id)), FieldTemplate(capName, FixedInt(capacity)),
                   FieldTemplate(freeName, ScanInt(open, close)), FieldTemplate(occName, CalcMinus(capName, freeName))]
    ensures var m2 := StoreParsed(map[idName := JString(id)], capName, Some(capacity));
      ApplyFields(scan, empty, f) ==
        ApplyField(scan, StoreParsed(m2, freeName, IntText(scan(open, close))), FieldTemplate(occName, CalcMinus(capName, freeName)))
  {
    var id1 := map[idName := JString(id)];
    var m2 := StoreParsed(id1, capName, Some(capacity));
    var m3 := StoreParsed(m2, freeName, IntText(scan(open, close)));
    FixedFieldStored(scan, empty, f[0]);
    FixedFieldStored(scan, id1, f[1]);
    ScannedFieldStored(scan, m2, f[2]);
    LastOfFour(scan, empty, f, id1, m2, m3);
  }

  /** The last field of a `cam_park_local` template, after the id, the capacity and the free count if it parsed. */
  lemma LocalDifference(scan: Scanner, id: string, capacity: Int32, free: Option<Int32>,
                        idName: string, capName: string, freeName: string, occName: string)
    requires Distinct4(idName, capName, freeName, occName)
    ensures var m2 := StoreParsed(map[idName := JString(id)], capName, Some(capacity));
      ApplyField(scan, StoreParsed(m2, freeName, free), FieldTemplate(occName, CalcMinus(capName, freeName))) ==
        if free.None? then Failure(MissingOperand(freeName))
        else Success(map[idName := JString(id), capName := JInt(capacity), freeName := JInt(free.value),
                         occName := JInt(Wrap32(capacity as int - free.value))])
  {
    DifferenceStored(scan, map[idName := JString(id)], Some(capacity), free, occName, capName, freeName);
  }

  /**
   * Constant id, scanned capacity, scanned occupied spaces and free as
   * their difference: the shape of every `cam_park_rss` template. The
   * difference throws naming capacity when it did not parse, else naming
   * occupied when that did not.
   */
  lemma ScannedCapacityRecord(scan: Scanner, empty: Record, f: seq<FieldTemplate>,
                              id: string, open1: string, close1: string, open2: string, close2: string,
                              idName: string, capName: string, occName: string, freeName: string)
    requires Distinct4(idName, capName, occName, freeName) && empty == map[]
    requires f == [FieldTemplate(idName, FixedString(id)), FieldTemplate(capName, ScanInt(open1, close1)),
                   FieldTemplate(occName, ScanInt(open2, close2)), FieldTemplate(freeName, CalcMinus(capName, occName))]
    ensures var capacity := IntText(scan(open1, close1));
      var occupied := IntText(scan(open2, close2));
      ApplyFields(scan, empty, f) ==
        if capacity.None? then Failure(MissingOperand(capName))
        else if occupied.None? then Failure(MissingOperand(occName))
        else Success(map[idName := JString(id), capName := JInt(capacity.value), occName := JInt(occupied.value),
                         freeName := JInt(Wrap32(capacity.value as int - occupied.value))])
  {
    ScannedOperands(scan, empty, f, id, open1, close1, open2, close2, idName, capName, occName, freeName);
    RssDifference(scan, id, IntText(scan(open1, close1)), IntText(scan(open2, close2)), idName, capName, occName, freeName);
  }

  /** The last field of a `cam_park_rss` template, after the id and whichever counts parsed. */
  lemma RssDifference(scan: Scanner, id: string, capacity: Option<Int32>, occupied: Option<Int32>,
                      idName: string, capName: string, occName: string, freeName: string)
    requires Distinct4(idName, capName, occName, freeName)
    ensures var m2 := StoreParsed(map[idName := JString(id)], capName, capacity);
      ApplyField(scan, StoreParsed(m2, occName, occupied), FieldTemplate(freeName, CalcMinus(capName, occName))) ==
        if capacity.None? then Failure(MissingOperand(capName))
        else if occupied.None? then Failure(MissingOperand(occName))
        else Success(map[idName := JString(id), capName := JInt(capacity.value), occName := JInt(occupied.value),
                         freeName := JInt(Wrap32(capacity.value as int - occupied.value))])
  {
    DifferenceStored(scan, map[idName := JString(id)], capacity, occupied, freeName, capName, occName);
  }

  /** The first three fields of a `cam_park_rss` template store the id and whichever counts parse. */
  lemma ScannedOperands(scan: Scanner, empty: Record, f: seq<FieldTemplate>,
                        id: string, open1: string, close1: string, open2: string, close2: string,
                        idName: string, capName: string, occName: string, freeName: string)
    requires Distinct4(idName, capName, occName, freeName) && empty == map[]
    requires f == [FieldTemplate(idName, FixedString(id)), FieldTemplate(capName, ScanInt(open1, close1)),
                   FieldTemplate(occName, ScanInt(open2, close2)), FieldTemplate(freeName, CalcMinus(capName, occName))]
    ensures var id1 := map[idName := JString(id)];
      var m2 := StoreParsed(id1, capName, IntText(scan(open1, close1)));
      ApplyFields(scan, empty, f) ==
        ApplyField(scan, StoreParsed(m2, occName, IntText(scan(open2, close2))), FieldTemplate(freeName, CalcMinus(capName, occName)))
  {
    var id1 := map[idName := JString(id)];
    var m2 := StoreParsed(id1, capName, IntText(scan(open1, close1)));
    var m3 := StoreParsed(m2, occName, IntText(scan(open2, close2)));
    FixedFieldStored(scan, empty, f[0]);
    ScannedFieldStored(scan, id1, f[1]);
    ScannedFieldStored(scan, m2, f[2]);
    LastOfFour(scan, empty, f, id1, m2, m3);
  }

  /** Occupied is exactly capacity minus free when neither is negative. */
  lemma LocalOccupancyExact(capacity: Int32, free: Int32)
    requires 0 <= capacity && 0 <= free
    ensures Wrap32(capacity - free) == capacity - free
  {
  }

  /**
   * The shape of a `cam_park_local` template under the given field names:
   * constant id, constant capacity, scanned free spaces, and occupied as
   * capacity minus free.
   */
  predicate LocalShape(t: FeedTemplate, idName: string, capName: string, freeName: string, occName: string) {
    Distinct4(idName, capName, freeName, occName) && |t.fields| == 4 &&
    t.fields[0].name == idName && t.fields[0].kind.FixedString? &&
    t.fields[1].name == capName && t.fields[1].kind.FixedInt? &&
    t.fields[2].name == freeName && t.fields[2].kind.ScanInt? &&
    t.fields[3] == FieldTemplate(occName, CalcMinus(capName, freeName))
  }

  /** Every built-in `cam_park_local` template has the local shape. */
  lemma CamParkLocalShape()
    ensures forall i :: 0 <= i < |CamParkLocal| ==>
      LocalShape(CamParkLocal[i], "parking_id", "spaces_capacity", "spaces_free", "spaces_occupied")
  {
  }

  /**
   * A record that a template of the local shape completes holds exactly the
   * four fields, with occupied equal to capacity minus free in `int`
   * arithmetic.
   */
  lemma LocalRecordOccupancy(scan: Scanner, t: FeedTemplate, rec: Record,
                             idName: string, capName: string, freeName: string, occName: string)
    requires LocalShape(t, idName, capName, freeName, occName)
    requires ApplyFields(scan, map[], t.fields) == Success(rec)
    ensures rec.Keys == {idName, capName, freeName, occName}
    ensures rec[capName] == JInt(t.fields[1].kind.n) && rec[freeName].JInt?
    ensures rec[occName] == JInt(Wrap32(rec[capName].i - rec[freeName].i))
  {
    var capacity := t.fields[1].kind.n;
    FixedCapacityRecord(scan, map[], t.fields, t.fields[0].kind.text, capacity,
                        t.fields[2].kind.open, t.fields[2].kind.close, idName, capName, freeName, occName);
    var v := IntText(scan(t.fields[2].kind.open, t.fields[2].kind.close));
    assert v.Some?;
    assert rec == map[idName := JString(t.fields[0].kind.text), capName := JInt(capacity),
                      freeName := JInt(v.value), occName := JInt(Wrap32(capacity as int - v.value))];
  }

  /** `LocalRecordOccupancy` for the record a local template parses from a page. */
  lemma LocalParsedRecord(page: string, t: FeedTemplate, rec: Record,
                          idName: string, capName: string, freeName: string, occName: string)
    requires LocalShape(t, idName, capName, freeName, occName)
    requires ParseRecord(page, t) == Some(Success(rec))
    ensures rec.Keys == {idName, capName, freeName, occName}
    ensures rec[capName] == JInt(t.fields[1].kind.n) && rec[freeName].JInt?
    ensures rec[occName] == JInt(Wrap32(rec[capName].i - rec[freeName].i))
  {
    var scan := PageScanner(page, IndexOf(page, t.tagStart, 0));
    LocalRecordOccupancy(scan, t, rec, idName, capName, freeName, occName);
  }

  /** What a local template guarantees of a record it completes. */
  predicate LocalFacts(rec: Record, idName: string, capName: string, freeName: string, occName: string) {
    rec.Keys == {idName, capName, freeName, occName} &&
    rec[capName].JInt? && rec[freeName].JInt? &&
    rec[occName] == JInt(Wrap32(rec[capName].i - rec[freeName].i))
  }

  /** `LocalParsedRecord` for each matching template and its record. */
  lemma LocalRecords(page: string, found: seq<FeedTemplate>, records: seq<Record>,
                     idName: string, capName: string, freeName: string, occName: string)
    requires |records| == |found|
    requires forall i :: 0 <= i < |found| ==> LocalShape(found[i], idName, capName, freeName, occName)
    requires forall i :: 0 <= i < |found| ==> ParseRecord(page, found[i]) == Some(Success(records[i]))
    ensures forall i :: 0 <= i < |records| ==> LocalFacts(records[i], idName, capName, freeName, occName)
  {
    forall i | 0 <= i < |records|
      ensures LocalFacts(records[i], idName, capName, freeName, occName)
    {
      LocalParsedRecord(page, found[i], records[i], idName, capName, freeName, occName);
    }
  }

  /**
   * From a page that templates of the local shape parse, every record holds
   * exactly the four fields and occupied is capacity minus free in `int`
   * arithmetic.
   */
  lemma LocalOccupancy(page: string, templates: seq<FeedTemplate>,
                       idName: string, capName: string, freeName: string, occName: string)
    requires forall i :: 0 <= i < |templates| ==> LocalShape(templates[i], idName, capName, freeName, occName)
    ensures var r := ParseArray(page, templates);
      r.Success? ==> forall i :: 0 <= i < |r.value| ==> LocalFacts(r.value[i], idName, capName, freeName, occName)
  {
    var r := ParseArray(page, templates);
    if r.Success? {
      ParseArrayRecords(page, templates);
      var found := Matching(page, templates);
      assert forall i :: 0 <= i < |found| ==> found[i] in templates;
      LocalRecords(page, found, r.value, idName, capName, freeName, occName);
    }
  }
}
