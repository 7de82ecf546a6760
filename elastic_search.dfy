/** The ElasticSearch log writer (src/logging/writers/ElasticSearch.cc): each record
    becomes an action line and a JSON document line in a bulk body that is sent
    once enough records or bytes have accumulated.

    `ODesc` is taken to append plainly, the HTTP request is the body recorded in
    `sent`, and the clock and time formatting behind the index name are a `stamp`
    argument. */
module ElasticSearch {
  import opened Wrappers
  import opened Ints
  import opened TextFormat
  import opened LogValue

  // ------------------------------------------------------- JSON strings

  /** The byte as the writer's signed `char` sees it. */
  function SignedByte(c: char): int
  {
    var b := ByteOf(c);
    if b >= 128 then b - 256 else b
  }

  /** The test on a string byte, as written: `c < 32 || c > 126 || c == '\n' ||
      c == '"' || c == '\'' || c == '\\' || c == '&'` on a signed `char`. */
  predicate EscapesInJson(c: char)
  {
    var sc := SignedByte(c);
    sc < 32 || sc > 126 || sc == 10 || sc == 34 || sc == 39 || sc == 92 || sc == 38
  }

  /** What the writer emits for one string byte: `\u00` and the byte's two lowercase
      hex digits, or the byte itself. */
  function JsonChar(c: char): string
  {
    if EscapesInJson(c) then "\\u00" + Hex2(ByteOf(c)) else [c]
  }

  /** A string's bytes as they appear between the quotes. */
  function JsonChars(s: string): string
    decreases |s|
  {
    if s == [] then "" else JsonChars(s[..|s| - 1]) + JsonChar(s[|s| - 1])
  }

  /** A string as the writer renders it. */
  function JsonString(s: string): string
  {
    "\"" + JsonChars(s) + "\""
  }

  /** The bytes escaped are exactly the control bytes, 127 and every byte with the
      high bit set (negative as a signed `char`), and the four characters
      `"` `'` `\` `&`; every other byte is copied. */
  lemma JsonCharEscapes(c: char)
    requires c as int < 256
    ensures EscapesInJson(c) <==> c as int < 32 || c as int >= 127 || c == '"' || c == '\'' || c == '\\' || c == '&'
    ensures EscapesInJson(c) ==> JsonChar(c) == "\\u00" + Hex2(c as int)
    ensures !EscapesInJson(c) ==> JsonChar(c) == [c]
  {
  }

  /** Decoding the body of a JSON string (section 7 of RFC 8259), for the escapes
      this writer produces: `\u00` with two hex digits is that byte; a quote,
      a backslash or a control character standing alone is malformed. */
  function JsonUnescape(t: string): Option<string>
    decreases |t|
  {
    if t == [] then Some("")
    else if t[0] == '\\' then
      if |t| >= 6 && t[1..4] == "u00" && HexPairValue(t[4..6]).Some? then
        match JsonUnescape(t[6..])
        case Some(rest) => Some([HexPairValue(t[4..6]).value as char] + rest)
        case None => None
      else None
    else if t[0] == '"' || t[0] as int < 32 then None
    else
      match JsonUnescape(t[1..])
      case Some(rest) => Some([t[0]] + rest)
      case None => None
  }

  lemma {:induction false} JsonCharsCons(c: char, s: string)
    ensures JsonChars([c] + s) == JsonChar(c) + JsonChars(s)
    decreases |s|
  {
    if s == [] {
      assert [c] + s == [c];
      assert [c][..0] == [];
    } else {
      var init, last := s[..|s| - 1], s[|s| - 1];
      var cs := [c] + s;
      assert cs[..|cs| - 1] == [c] + init && cs[|cs| - 1] == last;
      assert JsonChars(cs) == JsonChars([c] + init) + JsonChar(last);
      JsonCharsCons(c, init);
      assert JsonChars(s) == JsonChars(init) + JsonChar(last);
      AppendAssoc(JsonChar(c), JsonChars(init), JsonChar(last));
    }
  }

  /** Every byte string comes back from its JSON rendering: the escaping loses nothing. */
  lemma {:induction false} JsonStringRoundTrip(s: string)
    requires forall k :: 0 <= k < |s| ==> s[k] as int < 256
    ensures JsonUnescape(JsonChars(s)) == Some(s)
    decreases |s|
  {
    if s != [] {
      var c, rest := s[0], s[1..];
      assert s == [c] + rest;
      JsonCharsCons(c, rest);
      JsonStringRoundTrip(rest);
      JsonCharDecodes(c, JsonChars(rest));
    }
  }

  /** One rendered byte in front of any text decodes to that byte in front of the
      text's decoding. */
  lemma JsonCharDecodes(c: char, u: string)
    requires c as int < 256
    ensures JsonUnescape(JsonChar(c) + u) ==
      match JsonUnescape(u)
      case Some(rest) => Some([c] + rest)
      case None => None
  {
    var t := JsonChar(c) + u;
    if EscapesInJson(c) {
      Hex2RoundTrip(ByteOf(c));
      assert t[0] == '\\' && t[1..4] == "u00";
      assert t[4..6] == Hex2(ByteOf(c));
      assert t[6..] == u;
    } else {
      assert t[0] == c && t[1..] == u;
    }
  }

  // ------------------------------------------------------ JSON values

  /** What `AddValueToBuffer` appends for a value, and its result. Floating-point
      values, times, addresses and subnets carry the text their formatter produced. */
  function JsonValue(v: Val): Emit
    decreases v, 1
  {
    match v.datum
    case BoolD(x) => Emit(true, Decimal(x))
    case IntD(x) => Emit(true, Decimal(x))
    case CountD(_, n) => Emit(true, if n >= Int64Max then "null" else Decimal(n))
    case PortD(p) => Emit(true, Decimal(p))
    case ExternalD(k, t) =>
      Emit(true, if k == AddrValue || k == SubnetValue then "\"" + t + "\"" else t)
    case StringD(_, s) => Emit(true, JsonString(s))
    case TableD(vs) => Emit(true, "[" + Join(",", JsonTexts(vs)) + "]")
    case VectorD(vs) => Emit(true, "[" + Join(",", JsonTexts(vs)) + "]")
    case OtherD(_) => Emit(false, "")
  }

  /** The texts of container elements, one per element. */
  function JsonTexts(vs: seq<Val>): (ts: seq<string>)
    ensures |ts| == |vs|
    decreases vs, 0
  {
    if vs == [] then [] else JsonTexts(vs[..|vs| - 1]) + [JsonValue(vs[|vs| - 1]).text]
  }

  /** Whether rendering the value reports a count too large for a signed 64-bit integer. */
  predicate Overflows(v: Val)
    decreases v, 1
  {
    match v.datum
    case CountD(_, n) => n >= Int64Max
    case TableD(vs) => AnyOverflows(vs)
    case VectorD(vs) => AnyOverflows(vs)
    case _ => false
  }

  predicate AnyOverflows(vs: seq<Val>)
    decreases vs, 0
  {
    exists i :: 0 <= i < |vs| && Overflows(vs[i])
  }

  /** Counts below the signed 64-bit maximum are decimals that read back as the
      count; from that maximum up they are `null`, and an error is reported. */
  lemma CountRendering(k: bool, n: UInt64)
    ensures var e := JsonValue(Val(true, CountD(k, n)));
            e.ok &&
            (n >= Int64Max <==> e.text == "null") &&
            (n >= Int64Max <==> Overflows(Val(true, CountD(k, n)))) &&
            (n < Int64Max ==> ParseDecimal(e.text) == Some(n))
  {
    var e := JsonValue(Val(true, CountD(k, n)));
    if n < Int64Max {
      DecimalRoundTrip(n);
      assert e.text != "null" by {
        NatDecimalDigits(n);
        assert e.text == NatDecimal(n);
        assert !IsDigit('n');
      }
    }
  }

  /** Booleans are their integer payload, so false and true are 0 and 1; integers
      read back as themselves. */
  lemma IntegerRendering(x: Int64)
    ensures JsonValue(Val(true, BoolD(0))).text == "0"
    ensures JsonValue(Val(true, BoolD(1))).text == "1"
    ensures JsonValue(Val(true, IntD(x))).ok && ParseDecimal(JsonValue(Val(true, IntD(x))).text) == Some(x)
  {
    assert NatDecimal(0) == "0";
    assert NatDecimal(1) == "1";
    DecimalRoundTrip(x);
  }

  /** Strings are quoted and their bytes read back from between the quotes. */
  lemma StringRendering(k: StringKind, s: string)
    requires forall i :: 0 <= i < |s| ==> s[i] as int < 256
    ensures var t := JsonValue(Val(true, StringD(k, s))).text;
            |t| >= 2 && t[0] == '"' && t[|t| - 1] == '"' &&
            JsonUnescape(t[1..|t| - 1]) == Some(s)
  {
    var t := JsonValue(Val(true, StringD(k, s))).text;
    assert t[1..|t| - 1] == JsonChars(s);
    JsonStringRoundTrip(s);
  }

  /** Tables and vectors are their elements in brackets, separated by commas; an
      empty one is `[]`, and an element that fails does not fail the container. */
  lemma ContainerRendering(vs: seq<Val>)
    ensures JsonValue(Val(true, TableD(vs))) == JsonValue(Val(true, VectorD(vs)))
    ensures JsonValue(Val(true, VectorD(vs))).ok
    ensures vs == [] ==> JsonValue(Val(true, VectorD(vs))).text == "[]"
    ensures var t := JsonValue(Val(true, VectorD(vs))).text;
            t[0] == '[' && t[|t| - 1] == ']' && t[1..|t| - 1] == Join(",", JsonTexts(vs))
  {
    var t := "[" + Join(",", JsonTexts(vs)) + "]";
    assert JsonValue(Val(true, VectorD(vs))) == Emit(true, t);
    assert t[1..|t| - 1] == Join(",", JsonTexts(vs));
  }

  /** Types the writer has no case for fail and append nothing. */
  lemma UnsupportedRendering(code: nat)
    ensures JsonValue(Val(true, OtherD(code))) == Emit(false, "")
  {
  }

  // ------------------------------------------------------ fields and documents

  /** What `AddFieldToBuffer` appends: `"name":value` for a present value, nothing
      for an absent one. */
  function FieldText(f: LogField, v: Val): string
  {
    if v.present then "\"" + f.name + "\":" + JsonValue(v).text else ""
  }

  /** The comma `DoWrite` puts before column `i`: before every present field but
      the first column, whether or not an earlier one was written. */
  function CommaBefore(i: nat, v: Val): string
  {
    if i > 0 && v.present then "," else ""
  }

  /** The fields of a document as `DoWrite` writes them. */
  function DocumentFields(fields: seq<LogField>, vals: seq<Val>): string
    requires |fields| == |vals|
    decreases |vals|
  {
    if vals == [] then ""
    else
      var n := |vals| - 1;
      DocumentFields(fields[..n], vals[..n]) + CommaBefore(n, vals[n]) + FieldText(fields[n], vals[n])
  }

  /** The document line. */
  function Document(fields: seq<LogField>, vals: seq<Val>): string
    requires |fields| == |vals|
  {
    "{" + DocumentFields(fields, vals) + "}\n"
  }

  /** A column as the document loop sees it: whether its value is set, and the text
      `AddFieldToBuffer` appends for it. */
  datatype Column = Column(present: bool, text: string)

  /** Unset columns contribute no text. */
  predicate Blank(cs: seq<Column>)
  {
    forall i :: 0 <= i < |cs| && !cs[i].present ==> cs[i].text == ""
  }

  /** The columns of a record. */
  function Columns(fields: seq<LogField>, vals: seq<Val>): (cs: seq<Column>)
    requires |fields| == |vals|
    ensures |cs| == |vals| && Blank(cs)
    ensures forall i :: 0 <= i < |vals| ==> cs[i].present == vals[i].present
    decreases |vals|
  {
    if vals == [] then []
    else
      var n := |vals| - 1;
      Columns(fields[..n], vals[..n]) + [Column(vals[n].present, FieldText(fields[n], vals[n]))]
  }

  /** The fields as the loop of `DoWrite` writes them, over columns: a comma before
      every set column but the first. */
  function WrittenFields(cs: seq<Column>): string
    decreases |cs|
  {
    if cs == [] then ""
    else
      var n := |cs| - 1;
      WrittenFields(cs[..n]) + (if n > 0 && cs[n].present then "," else "") + cs[n].text
  }

  /** The texts of the set columns, in order. */
  function PresentTexts(cs: seq<Column>): seq<string>
    decreases |cs|
  {
    if cs == [] then []
    else
      var n := |cs| - 1;
      if cs[n].present then PresentTexts(cs[..n]) + [cs[n].text] else PresentTexts(cs[..n])
  }

  /** The fields as a JSON object needs them: a comma before a set column exactly
      when an earlier column was written. */
  function IntendedFields(cs: seq<Column>): string
    decreases |cs|
  {
    if cs == [] then ""
    else
      var n := |cs| - 1;
      var prev := IntendedFields(cs[..n]);
      if !cs[n].present then prev
      else if PresentTexts(cs[..n]) == [] then prev + cs[n].text
      else prev + "," + cs[n].text
  }

  /** The comma the fields as written have in front of the intended ones: there
      exactly when the first column is unset and a later one is set. */
  function LeadingComma(cs: seq<Column>): string
  {
    if |cs| > 0 && !cs[0].present && |PresentTexts(cs)| > 0 then "," else ""
  }

  /** The intended fields are the set columns' texts separated by single commas. */
  lemma {:induction false} IntendedFieldsAreJoined(cs: seq<Column>)
    ensures IntendedFields(cs) == Join(",", PresentTexts(cs))
    decreases |cs|
  {
    if cs != [] {
      var n := |cs| - 1;
      var before := PresentTexts(cs[..n]);
      IntendedFieldsAreJoined(cs[..n]);
      if cs[n].present {
        JoinSnoc(",", before, cs[n].text);
        if before == [] {
          assert IntendedFields(cs) == "" + cs[n].text;
        }
      }
    }
  }

  /** The loop of `DoWrite` writes the columns of the record. */
  lemma {:induction false} DocumentColumns(fields: seq<LogField>, vals: seq<Val>)
    requires |fields| == |vals|
    ensures DocumentFields(fields, vals) == WrittenFields(Columns(fields, vals))
    decreases |vals|
  {
    if vals != [] {
      var n := |vals| - 1;
      var cs := Columns(fields, vals);
      DocumentColumns(fields[..n], vals[..n]);
      assert cs[..n] == Columns(fields[..n], vals[..n]);
    }
  }

  /** As written, the fields differ from the intended ones by a leading comma, which
      appears exactly when the first column is unset and a later one is set. */
  lemma DocumentFieldsLeadingComma(fields: seq<LogField>, vals: seq<Val>)
    requires |fields| == |vals|
    ensures var cs := Columns(fields, vals);
            DocumentFields(fields, vals) == LeadingComma(cs) + IntendedFields(cs)
  {
    DocumentColumns(fields, vals);
    WrittenLeadingComma(Columns(fields, vals));
  }

  lemma {:induction false} WrittenLeadingComma(cs: seq<Column>)
    requires Blank(cs)
    ensures WrittenFields(cs) == LeadingComma(cs) + IntendedFields(cs)
    decreases |cs|
  {
    var n := |cs| - 1;
    if n == 0 {
      assert cs[..0] == [];
      if cs[0].present {
        assert WrittenFields(cs) == "" + "" + cs[0].text;
        assert IntendedFields(cs) == "" + cs[0].text;
      }
    } else if n > 0 {
      WrittenLeadingComma(cs[..n]);
      assert cs[..n][0] == cs[0];
      var t := cs[n].text;
      var d0, i0, l0 := WrittenFields(cs[..n]), IntendedFields(cs[..n]), LeadingComma(cs[..n]);
      if !cs[n].present {
        assert WrittenFields(cs) == d0 + "" + "";
      } else if PresentTexts(cs[..n]) == [] {
        NoneWritten(cs[..n]);
        FirstWritten(d0, i0, t);
      } else {
        CommaAfterLead(l0, i0, t);
      }
    }
  }

  lemma FirstWritten(d0: string, i0: string, t: string)
    requires d0 == "" && i0 == ""
    ensures d0 + "," + t == "," + (i0 + t)
  {
  }

  lemma CommaAfterLead(lead: string, prev: string, t: string)
    ensures lead + prev + "," + t == lead + (prev + "," + t)
  {
    AppendAssoc(lead, prev, ",");
    AppendAssoc(lead, prev + ",", t);
  }

  /** When no column is set, nothing is written. */
  lemma {:induction false} NoneWritten(cs: seq<Column>)
    requires Blank(cs) && PresentTexts(cs) == []
    ensures WrittenFields(cs) == "" && IntendedFields(cs) == ""
    ensures forall i :: 0 <= i < |cs| ==> !cs[i].present
    decreases |cs|
  {
    if cs != [] {
      var n := |cs| - 1;
      NoneWritten(cs[..n]);
      assert WrittenFields(cs) == "" + "" + "";
    }
  }

  /** A record whose first column is unset and whose second is the count 1 yields a
      document that opens with a comma: not a JSON object. */
  lemma AbsentFirstFieldComma()
    ensures Document([LogField("a", TypeCount, TypeVoid), LogField("b", TypeCount, TypeVoid)],
                     [Val(false, CountD(false, 0)), Val(true, CountD(false, 1))])
            == "{,\"b\":1}\n"
  {
    var fields := [LogField("a", TypeCount, TypeVoid), LogField("b", TypeCount, TypeVoid)];
    var vals := [Val(false, CountD(false, 0)), Val(true, CountD(false, 1))];
    assert NatDecimal(1) == "1";
    assert fields[..1][..0] == [] && vals[..1][..0] == [];
    assert DocumentFields(fields[..1], vals[..1]) == "";
  }

  /** When the first column is set, the document is as intended: the set columns'
      texts separated by single commas. */
  lemma DocumentAsIntended(fields: seq<LogField>, vals: seq<Val>)
    requires |fields| == |vals| && (vals == [] || vals[0].present)
    ensures DocumentFields(fields, vals) == Join(",", PresentTexts(Columns(fields, vals)))
  {
    DocumentFieldsLeadingComma(fields, vals);
    IntendedFieldsAreJoined(Columns(fields, vals));
  }

  // ------------------------------------------------------ action lines

  /** The pieces of the action line. */
  const ActionHead: string := "{" + IndexKey + "{" + IndexNameKey
  const IndexKey: string := "\"index\":"
  const IndexNameKey: string := "\"_index\":\""
  const ActionType: string := "\",\"_type\":\""
  const ActionTail: string := "\"}\n"
  const IntendedActionTail: string := "\"}}\n"

  /** The action line as written: the closing string is `"}` and a newline, so the
      outer object is never closed. */
  function ActionLine(index: string, typePrefix: string, path: string): string
  {
    ActionHead + index + ActionType + typePrefix + path + ActionTail
  }

  /** The action line the comment above the code describes, with both objects closed. */
  function IntendedActionLine(index: string, typePrefix: string, path: string): string
  {
    ActionHead + index + ActionType + typePrefix + path + IntendedActionTail
  }

  predicate BraceFree(s: string)
  {
    '{' !in s && '}' !in s
  }

  lemma HeadOpens()
    ensures multiset(ActionHead)['{'] == 2
  {
    assert BraceFree(IndexKey) && BraceFree(IndexNameKey);
  }

  lemma HeadClosesNothing()
    ensures '}' !in ActionHead
  {
    assert BraceFree(IndexKey) && BraceFree(IndexNameKey);
  }

  lemma TypeBraceFree()
    ensures BraceFree(ActionType)
  {
  }

  lemma TailCloses()
    ensures '{' !in ActionTail && multiset(ActionTail)['}'] == 1
  {
  }

  lemma IntendedTailCloses()
    ensures '{' !in IntendedActionTail && multiset(IntendedActionTail)['}'] == 2
  {
  }

  /** Whatever the index, prefix and path (without braces), the action line opens
      two objects and closes one. */
  lemma ActionLineBraces(index: string, typePrefix: string, path: string)
    requires BraceFree(index) && BraceFree(typePrefix) && BraceFree(path)
    ensures multiset(ActionLine(index, typePrefix, path))['{'] == 2
    ensures multiset(ActionLine(index, typePrefix, path))['}'] == 1
  {
    HeadOpens();
    HeadClosesNothing();
    TypeBraceFree();
    TailCloses();
    PiecesBraces(ActionHead, index, ActionType, typePrefix, path, ActionTail);
  }

  /** The intended action line closes both objects it opens. */
  lemma IntendedActionLineBraces(index: string, typePrefix: string, path: string)
    requires BraceFree(index) && BraceFree(typePrefix) && BraceFree(path)
    ensures multiset(IntendedActionLine(index, typePrefix, path))['{'] == 2
    ensures multiset(IntendedActionLine(index, typePrefix, path))['}'] == 2
  {
    HeadOpens();
    HeadClosesNothing();
    TypeBraceFree();
    IntendedTailCloses();
    PiecesBraces(ActionHead, index, ActionType, typePrefix, path, IntendedActionTail);
  }

  /** Braces of a line made of a head opening two objects, four brace-free pieces
      and a tail that only closes. */
  lemma PiecesBraces(a: string, b: string, c: string, d: string, e: string, f: string)
    requires multiset(a)['{'] == 2 && '}' !in a && '{' !in f
    requires BraceFree(b) && BraceFree(c) && BraceFree(d) && BraceFree(e)
    ensures multiset(a + b + c + d + e + f)['{'] == 2
    ensures multiset(a + b + c + d + e + f)['}'] == multiset(f)['}']
  {
  }

  /** What `DoWrite` adds to the bulk body for one record: its action line and its document. */
  function Bulk(index: string, typePrefix: string, path: string, fields: seq<LogField>, vals: seq<Val>): string
    requires |fields| == |vals|
  {
    ActionLine(index, typePrefix, path) + Document(fields, vals)
  }

  /** Whether any set column of the record reports an overflow. */
  predicate RecordOverflows(vals: seq<Val>)
  {
    exists i :: 0 <= i < |vals| && vals[i].present && Overflows(vals[i])
  }

  // ------------------------------------------------------ the writer

  class Writer {
    const indexName: string
    const typePrefix: string
    const maxBatchSize: nat
    const maxByteSize: nat
    /** The bulk body being accumulated. */
    var buffer: string
    /** The number of records in `buffer`. */
    var counter: nat
    var currentIndex: string
    var prevIndex: string
    /** The bodies handed to the HTTP request, in order. */
    var sent: seq<string>
    /** Whether an error has been reported. */
    var errorReported: bool
    /** The texts of the records in `buffer`, in order. */
    ghost var pending: seq<string>

    /** The buffer holds exactly the records counted. */
    ghost predicate Valid()
      reads this
    {
      buffer == Concat(pending) && counter == |pending|
    }

    /** Neither threshold is reached, unless the buffer was just sent. */
    predicate BelowThresholds()
      reads this
    {
      (counter < maxBatchSize && |buffer| < maxByteSize) || (counter == 0 && buffer == "")
    }

    constructor (indexName: string, typePrefix: string, maxBatchSize: nat, maxByteSize: nat)
      ensures this.indexName == indexName && this.typePrefix == typePrefix
      ensures this.maxBatchSize == maxBatchSize && this.maxByteSize == maxByteSize
      ensures buffer == "" && counter == 0 && currentIndex == "" && prevIndex == ""
      ensures sent == [] && !errorReported && pending == []
      ensures Valid() && BelowThresholds()
    {
      this.indexName := indexName;
      this.typePrefix := typePrefix;
      this.maxBatchSize := maxBatchSize;
      this.maxByteSize := maxByteSize;
      buffer := "";
      counter := 0;
      currentIndex := "";
      prevIndex := "";
      sent := [];
      errorReported := false;
      pending := [];
    }

    /** `BatchIndex`: sends the body and starts an empty one. */
    method BatchIndex()
      modifies this`buffer, this`counter, this`sent, this`pending
      ensures sent == old(sent) + [old(buffer)]
      ensures buffer == "" && counter == 0 && pending == []
      ensures Valid() && BelowThresholds()
      ensures Concat(sent) + buffer == old(Concat(sent) + buffer)
    {
      sent := sent + [buffer];
      buffer := "";
      counter := 0;
      pending := [];
    }

    /** `DoFinish`: sends what is left. */
    method DoFinish()
      modifies this`buffer, this`counter, this`sent, this`pending
      ensures sent == old(sent) + [old(buffer)]
      ensures buffer == "" && counter == 0 && Valid()
    {
      BatchIndex();
    }

    /** `UpdateIndex`, with `stamp` standing for the formatted start of the rotation interval. */
    method UpdateIndex(stamp: string)
      modifies this`currentIndex, this`prevIndex
      ensures prevIndex == old(currentIndex)
      ensures currentIndex == indexName + "-" + stamp
    {
      prevIndex := currentIndex;
      currentIndex := indexName + "-" + stamp;
    }

    /** `DoRotate`: moves on to the next index. */
    method DoRotate(stamp: string)
      modifies this`currentIndex, this`prevIndex
      ensures prevIndex == old(currentIndex)
      ensures currentIndex == indexName + "-" + stamp
    {
      UpdateIndex(stamp);
    }

    /** `AddValueToBuffer`. */
    method AddValueToBuffer(v: Val) returns (ok: bool)
      modifies this`buffer, this`errorReported
      ensures ok == JsonValue(v).ok
      ensures buffer == old(buffer) + JsonValue(v).text
      ensures errorReported == (old(errorReported) || Overflows(v))
      decreases v, 1
    {
      match v.datum {
        case BoolD(x) =>
          buffer := buffer + Decimal(x);
        case IntD(x) =>
          buffer := buffer + Decimal(x);
        case CountD(_, n) =>
          if n >= Int64Max {
            errorReported := true;
            buffer := buffer + "null";
          } else {
            buffer := buffer + Decimal(n);
          }
        case PortD(p) =>
          buffer := buffer + Decimal(p);
        case ExternalD(k, t) =>
          if k == AddrValue || k == SubnetValue {
            buffer := buffer + "\"" + t + "\"";
          } else {
            buffer := buffer + t;
          }
        case StringD(_, s) =>
          AddString(s);
        case TableD(vs) =>
          AddElements(vs);
        case VectorD(vs) =>
          AddElements(vs);
        case OtherD(_) =>
          return false;
      }
      ok := true;
    }

    /** The byte loop of `AddValueToBuffer` for strings. */
    method AddString(s: string)
      modifies this`buffer
      ensures buffer == old(buffer) + JsonString(s)
    {
      buffer := buffer + "\"";
      ghost var open := buffer;
      var i := 0;
      while i < |s|
        invariant 0 <= i <= |s|
        invariant buffer == open + JsonChars(s[..i])
      {
        AddChar(s[i]);
        assert s[..i + 1][..i] == s[..i];
        AppendAssoc(open, JsonChars(s[..i]), JsonChar(s[i]));
        i := i + 1;
      }
      assert s[..|s|] == s;
      buffer := buffer + "\"";
      AppendAssoc(old(buffer), "\"", JsonChars(s));
      AppendAssoc(old(buffer), "\"" + JsonChars(s), "\"");
    }

    /** One byte of a string: escaped as `\u00` and two hexadecimal digits, or as is. */
    method AddChar(c: char)
      modifies this`buffer
      ensures buffer == old(buffer) + JsonChar(c)
    {
      if EscapesInJson(c) {
        var b := ByteOf(c);
        buffer := buffer + "\\u00";
        buffer := buffer + [HexDigit(b / 16)];
        buffer := buffer + [HexDigit(b % 16)];
        AppendAssoc(old(buffer) + "\\u00", [HexDigit(b / 16)], [HexDigit(b % 16)]);
        AppendAssoc(old(buffer), "\\u00", Hex2(b));
      } else {
        buffer := buffer + [c];
      }
    }

    /** The element loop of `AddValueToBuffer` for tables and vectors; an element's
        result is not looked at. */
    method AddElements(vs: seq<Val>)
      modifies this`buffer, this`errorReported
      ensures buffer == old(buffer) + ("[" + Join(",", JsonTexts(vs)) + "]")
      ensures errorReported == (old(errorReported) || AnyOverflows(vs))
      decreases vs, 0
    {
      buffer := buffer + "[";
      ghost var open := buffer;
      var j := 0;
      while j < |vs|
        invariant 0 <= j <= |vs|
        invariant buffer == open + Join(",", JsonTexts(vs[..j]))
        invariant errorReported == (old(errorReported) || AnyOverflows(vs[..j]))
      {
        ghost var before := buffer;
        ghost var comma := if j > 0 then "," else "";
        if j > 0 {
          buffer := buffer + ",";
        }
        assert buffer == before + comma;
        var _ := AddValueToBuffer(vs[j]);
        ElementsStep(vs, j);
        AppendAssoc(open, Join(",", JsonTexts(vs[..j])), comma);
        AppendAssoc(open, Join(",", JsonTexts(vs[..j])) + comma, JsonValue(vs[j]).text);
        j := j + 1;
      }
      assert vs[..|vs|] == vs;
      buffer := buffer + "]";
      AppendAssoc(old(buffer), "[", Join(",", JsonTexts(vs)));
      AppendAssoc(old(buffer), "[" + Join(",", JsonTexts(vs)), "]");
    }

    /** `AddFieldToBuffer`. */
    method AddFieldToBuffer(v: Val, f: LogField) returns (ok: bool)
      modifies this`buffer, this`errorReported
      ensures ok == v.present
      ensures buffer == old(buffer) + FieldText(f, v)
      ensures errorReported == (old(errorReported) || (v.present && Overflows(v)))
    {
      if !v.present {
        return false;
      }
      buffer := buffer + "\"";
      buffer := buffer + f.name;
      buffer := buffer + "\":";
      var _ := AddValueToBuffer(v);
      ok := true;
    }

    /** The document part of `DoWrite`: the fields in braces, then a newline. */
    method AddDocument(fields: seq<LogField>, vals: seq<Val>)
      requires |fields| == |vals|
      modifies this`buffer, this`errorReported
      ensures buffer == old(buffer) + Document(fields, vals)
      ensures errorReported == (old(errorReported) || RecordOverflows(vals))
    {
      buffer := buffer + "{";
      ghost var open := buffer;
      assert DocumentFields(fields[..0], vals[..0]) == "";
      for i := 0 to |vals|
        invariant buffer == open + DocumentFields(fields[..i], vals[..i])
        invariant errorReported == (old(errorReported) || RecordOverflows(vals[..i]))
      {
        ghost var before := buffer;
        // `ODesc` keeps its bytes NUL-terminated; the test reads that terminator.
        var bytes := buffer + "\0";
        if i > 0 && bytes[|buffer|] != ',' && vals[i].present {
          buffer := buffer + ",";
        }
        assert buffer == before + CommaBefore(i, vals[i]);
        var _ := AddFieldToBuffer(vals[i], fields[i]);
        DocumentFieldsStep(fields, vals, i);
        AppendAssoc(open, DocumentFields(fields[..i], vals[..i]), CommaBefore(i, vals[i]));
        AppendAssoc(open, DocumentFields(fields[..i], vals[..i]) + CommaBefore(i, vals[i]), FieldText(fields[i], vals[i]));
      }
      assert fields[..|fields|] == fields && vals[..|vals|] == vals;
      buffer := buffer + "}\n";
      AppendAssoc(old(buffer), "{", DocumentFields(fields, vals));
      AppendAssoc(old(buffer), "{" + DocumentFields(fields, vals), "}\n");
    }

    /** The action line part of `DoWrite`. */
    method AddActionLine(path: string)
      modifies this`buffer
      ensures buffer == old(buffer) + ActionLine(currentIndex, typePrefix, path)
    {
      buffer := buffer + ActionHead;
      buffer := buffer + currentIndex;
      buffer := buffer + ActionType;
      buffer := buffer + typePrefix;
      buffer := buffer + path;
      buffer := buffer + ActionTail;
    }

    /** `DoWrite`: appends the record's action line and document, then sends the body
        once either threshold is reached. */
    method DoWrite(path: string, fields: seq<LogField>, vals: seq<Val>, stamp: string) returns (ok: bool)
      requires |fields| == |vals|
      requires Valid()
      modifies this
      ensures ok && Valid() && BelowThresholds()
      ensures old(currentIndex) == "" ==> prevIndex == old(currentIndex) && currentIndex == indexName + "-" + stamp
      ensures old(currentIndex) != "" ==> prevIndex == old(prevIndex) && currentIndex == old(currentIndex)
      ensures var record := Bulk(currentIndex, typePrefix, path, fields, vals);
              if old(counter) + 1 >= maxBatchSize || |old(buffer) + record| >= maxByteSize
              then sent == old(sent) + [old(buffer) + record] && buffer == "" && counter == 0
              else sent == old(sent) && buffer == old(buffer) + record && counter == old(counter) + 1
      ensures Concat(sent) + buffer == old(Concat(sent) + buffer) + Bulk(currentIndex, typePrefix, path, fields, vals)
      ensures errorReported == (old(errorReported) || RecordOverflows(vals))
    {
      if |currentIndex| == 0 {
        UpdateIndex(stamp);
      }
      ghost var start := buffer;
      AddActionLine(path);
      AddDocument(fields, vals);
      ghost var record := Bulk(currentIndex, typePrefix, path, fields, vals);
      AppendAssoc(start, ActionLine(currentIndex, typePrefix, path), Document(fields, vals));
      assert buffer == start + record;
      AppendAssoc(Concat(sent), start, record);
      pending := pending + [record];
      counter := counter + 1;
      if counter >= maxBatchSize || |buffer| >= maxByteSize {
        BatchIndex();
      }
      ok := true;
    }
  }

  /** One column more in the document and in the overflow test. */
  lemma DocumentFieldsStep(fields: seq<LogField>, vals: seq<Val>, i: nat)
    requires |fields| == |vals| && i < |vals|
    ensures DocumentFields(fields[..i + 1], vals[..i + 1]) ==
      DocumentFields(fields[..i], vals[..i]) + CommaBefore(i, vals[i]) + FieldText(fields[i], vals[i])
    ensures RecordOverflows(vals[..i + 1]) == (RecordOverflows(vals[..i]) || (vals[i].present && Overflows(vals[i])))
  {
    assert fields[..i + 1][..i] == fields[..i] && vals[..i + 1][..i] == vals[..i];
    RecordOverflowsSnoc(vals[..i], vals[i]);
    assert vals[..i + 1] == vals[..i] + [vals[i]];
  }

  /** One element more in a table or vector rendering and in its overflow test. */
  lemma ElementsStep(vs: seq<Val>, j: nat)
    requires j < |vs|
    ensures Join(",", JsonTexts(vs[..j + 1])) ==
      Join(",", JsonTexts(vs[..j])) + (if j > 0 then "," else "") + JsonValue(vs[j]).text
    ensures AnyOverflows(vs[..j + 1]) == (AnyOverflows(vs[..j]) || Overflows(vs[j]))
  {
    assert vs[..j + 1] == vs[..j] + [vs[j]];
    assert vs[..j + 1][..j] == vs[..j];
    JoinSnoc(",", JsonTexts(vs[..j]), JsonValue(vs[j]).text);
    AnyOverflowsSnoc(vs[..j], vs[j]);
  }

  lemma AnyOverflowsSnoc(vs: seq<Val>, v: Val)
    ensures AnyOverflows(vs + [v]) == (AnyOverflows(vs) || Overflows(v))
  {
    if Overflows(v) {
      assert (vs + [v])[|vs|] == v;
    }
    if AnyOverflows(vs) {
      var i :| 0 <= i < |vs| && Overflows(vs[i]);
      assert (vs + [v])[i] == vs[i];
    }
  }

  lemma RecordOverflowsSnoc(vals: seq<Val>, v: Val)
    ensures RecordOverflows(vals + [v]) == (RecordOverflows(vals) || (v.present && Overflows(v)))
  {
    if v.present && Overflows(v) {
      assert (vals + [v])[|vals|] == v;
    }
    if RecordOverflows(vals) {
      var i :| 0 <= i < |vals| && vals[i].present && Overflows(vals[i]);
      assert (vals + [v])[i] == vals[i];
    }
  }
}
