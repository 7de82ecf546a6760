/** The ASCII log writer (src/LogWriterAscii.cc): one line per record with the
    columns joined by a separator, container elements joined by a set separator,
    placeholders for unset and empty values, and a header of prefixed lines.

    `ODesc` is taken to append plainly (its escaping of the separator is not part
    of this model), the log file is the text written to it, and opening and writing
    the file do not fail. */
module AsciiWriter {
  import opened Wrappers
  import opened Ints
  import opened TextFormat
  import opened LogValue

  /** The writer's settings, read once at construction. `typeName` is `type_name()`,
      whose source is not part of this model. */
  datatype Config = Config(
    separator: string,
    setSeparator: string,
    emptyField: string,
    unsetField: string,
    headerPrefix: string,
    includeHeader: bool,
    outputToStdout: bool,
    typeName: TypeTag -> string)

  // -------------------------------------------------------- get_escaped_string

  /** `snprintf(tbuf, sizeof(tbuf), "\\x%02x", c)` for a `char c`: `char` is signed,
      so a byte from 0x80 up is sign-extended and prints with six extra `f`s. */
  function EscapeChar(c: char): string
  {
    var b := ByteOf(c);
    "\\x" + (if b >= 128 then "ffffff" else "") + Hex2(b)
  }

  /** The text `get_escaped_string` returns: each character escaped, in order. */
  function Escaped(s: string): string
    decreases |s|
  {
    if s == [] then "" else Escaped(s[..|s| - 1]) + EscapeChar(s[|s| - 1])
  }

  /** `get_escaped_string`. */
  method EscapedString(s: string) returns (esc: string)
    ensures esc == Escaped(s)
  {
    esc := "";
    var i := 0;
    while i < |s|
      invariant 0 <= i <= |s|
      invariant esc == Escaped(s[..i])
    {
      esc := esc + EscapeChar(s[i]);
      assert s[..i + 1][..i] == s[..i];
      i := i + 1;
    }
    assert s[..|s|] == s;
  }

  predicate IsAscii(s: string)
  {
    forall k :: 0 <= k < |s| ==> ByteOf(s[k]) < 128
  }

  predicate IsBytes(s: string)
  {
    forall k :: 0 <= k < |s| ==> s[k] as int < 256
  }

  /** What a reader of `\x##` escapes recovers: each four-character group is a
      backslash, an `x` and two hex digits standing for one byte. */
  function Unescape(t: string): Option<string>
    decreases |t|
  {
    if t == [] then Some("")
    else if |t| < 4 then None
    else
      var group := t[|t| - 4..];
      var b := HexPairValue(group[2..]);
      if group[0] == '\\' && group[1] == 'x' && b.Some? then
        match Unescape(t[..|t| - 4])
        case Some(init) => Some(init + [b.value as char])
        case None => None
      else None
  }

  /** A byte from 0x80 up does not escape as `\x##`: the `%02x` of a sign-extended
      `char` prints eight digits, and a reader of `\x##` groups cannot decode it. */
  lemma EscapeCharHighByte()
    ensures EscapeChar('\U{80}') == "\\xffffff80"
    ensures |Escaped("\U{80}")| == 10
    ensures Unescape(Escaped("\U{80}")) == None
  {
    assert Hex2(128) == "80";
    var t := Escaped("\U{80}");
    assert t == "" + EscapeChar('\U{80}');
    assert t[|t| - 4] == 'f';
  }

  /** The escape the header comment promises: `\x` and the two hex digits of the
      byte, whatever its value (`%02x` of an `unsigned char`). */
  function EscapeByte(c: char): string
  {
    "\\x" + Hex2(ByteOf(c))
  }

  function EscapedBytes(s: string): string
    decreases |s|
  {
    if s == [] then "" else EscapedBytes(s[..|s| - 1]) + EscapeByte(s[|s| - 1])
  }

  /** Decoding text followed by one more `\x##` group decodes the text and then that byte. */
  lemma UnescapeSnoc(t: string, b: nat)
    requires b < 256
    ensures Unescape(t + ("\\x" + Hex2(b))) ==
      match Unescape(t)
      case Some(init) => Some(init + [b as char])
      case None => None
  {
    var u := t + ("\\x" + Hex2(b));
    Hex2RoundTrip(b);
    assert u[..|u| - 4] == t;
    assert u[|u| - 4..] == "\\x" + Hex2(b);
    assert u[|u| - 4..][2..] == Hex2(b);
  }

  /** With the unsigned escape every byte string decodes back from its escaping. */
  lemma {:induction false} EscapedBytesRoundTrip(s: string)
    requires IsBytes(s)
    ensures |EscapedBytes(s)| == 4 * |s|
    ensures Unescape(EscapedBytes(s)) == Some(s)
    decreases |s|
  {
    if s != [] {
      var init, c := s[..|s| - 1], s[|s| - 1];
      EscapedBytesRoundTrip(init);
      assert EscapedBytes(s) == EscapedBytes(init) + ("\\x" + Hex2(ByteOf(c)));
      UnescapeSnoc(EscapedBytes(init), ByteOf(c));
      assert ByteOf(c) as char == c;
      InitLast(s);
    }
  }

  /** For characters 0..127 the escape as written is the two-digit `\x##` escape. */
  lemma {:induction false} EscapedAscii(s: string)
    requires IsAscii(s)
    ensures Escaped(s) == EscapedBytes(s)
    decreases |s|
  {
    if s != [] {
      EscapedAscii(s[..|s| - 1]);
    }
  }

  // ------------------------------------------------------------ DoWriteOne

  /** The text of a string column: the empty placeholder for an empty string; a
      string that equals the unset placeholder with its first byte escaped; any
      other string as it is. */
  function StringText(cfg: Config, s: string): string
  {
    if |s| == 0 then cfg.emptyField
    else if |s| == |cfg.unsetField| && s == cfg.unsetField then "\\x" + Hex2(ByteOf(s[0])) + s[1..]
    else s
  }

  /** What `DoWriteOne` appends for one value, and its result. */
  function Render(cfg: Config, v: Val): Emit
    decreases v, 1
  {
    if !v.present then Emit(true, cfg.unsetField)
    else match v.datum
      case BoolD(x) => Emit(true, if x != 0 then "T" else "F")
      case IntD(x) => Emit(true, Decimal(x))
      case CountD(_, n) => Emit(true, Decimal(n))
      case PortD(p) => Emit(true, Decimal(p))
      case ExternalD(_, t) => Emit(true, t)
      case StringD(_, s) => Emit(true, StringText(cfg, s))
      case TableD(vs) => if |vs| == 0 then Emit(true, cfg.emptyField) else Joined(cfg, cfg.setSeparator, vs)
      case VectorD(vs) => if |vs| == 0 then Emit(true, cfg.emptyField) else Joined(cfg, cfg.setSeparator, vs)
      case OtherD(_) => Emit(false, "")
  }

  /** The values rendered in order with `sep` between neighbours, stopping at the
      first value that fails. */
  function Joined(cfg: Config, sep: string, vs: seq<Val>): Emit
    decreases vs, 0
  {
    if vs == [] then Emit(true, "")
    else
      var init := Joined(cfg, sep, vs[..|vs| - 1]);
      if !init.ok then init
      else
        var last := Render(cfg, vs[|vs| - 1]);
        Emit(last.ok, init.text + (if |vs| > 1 then sep else "") + last.text)
  }

  /** The texts of the values, one per value. */
  function Texts(cfg: Config, vs: seq<Val>): (ts: seq<string>)
    ensures |ts| == |vs|
    ensures forall i :: 0 <= i < |vs| ==> ts[i] == Render(cfg, vs[i]).text
    decreases |vs|
  {
    if vs == [] then [] else Texts(cfg, vs[..|vs| - 1]) + [Render(cfg, vs[|vs| - 1]).text]
  }

  predicate AllRender(cfg: Config, vs: seq<Val>)
  {
    forall i :: 0 <= i < |vs| ==> Render(cfg, vs[i]).ok
  }

  /** Joining succeeds exactly when every value renders, and then it is the values'
      texts joined by the separator: no leading or trailing separator. */
  lemma {:induction false} JoinedIsJoin(cfg: Config, sep: string, vs: seq<Val>)
    ensures Joined(cfg, sep, vs).ok <==> AllRender(cfg, vs)
    ensures AllRender(cfg, vs) ==> Joined(cfg, sep, vs).text == Join(sep, Texts(cfg, vs))
    decreases |vs|
  {
    if vs != [] {
      var n := |vs| - 1;
      var init, last := vs[..n], Render(cfg, vs[n]);
      JoinedIsJoin(cfg, sep, init);
      AllRenderSnoc(cfg, vs);
      if AllRender(cfg, init) {
        assert vs[..n] == init;
        JoinedStep(cfg, sep, vs, n);
        assert Texts(cfg, vs) == Texts(cfg, init) + [last.text];
        JoinSnoc(sep, Texts(cfg, init), last.text);
      }
    }
  }

  /** Every value renders exactly when all but the last do and the last does. */
  lemma AllRenderSnoc(cfg: Config, vs: seq<Val>)
    requires vs != []
    ensures AllRender(cfg, vs) == (AllRender(cfg, vs[..|vs| - 1]) && Render(cfg, vs[|vs| - 1]).ok)
  {
    var init := vs[..|vs| - 1];
    if !AllRender(cfg, init) {
      var i :| 0 <= i < |init| && !Render(cfg, init[i]).ok;
      assert vs[i] == init[i];
    }
  }

  /** One value more, after values that all rendered. */
  lemma JoinedStep(cfg: Config, sep: string, vs: seq<Val>, j: nat)
    requires j < |vs| && Joined(cfg, sep, vs[..j]).ok
    ensures var r := Render(cfg, vs[j]);
            Joined(cfg, sep, vs[..j + 1]) ==
              Emit(r.ok, Joined(cfg, sep, vs[..j]).text + (if j > 0 then sep else "") + r.text)
  {
    assert vs[..j + 1][..j] == vs[..j];
  }

  /** An unset value is the unset placeholder, and writing it succeeds. */
  lemma RenderUnset(cfg: Config, v: Val)
    requires !v.present
    ensures Render(cfg, v) == Emit(true, cfg.unsetField)
  {
  }

  /** Booleans are `T` and `F`. */
  lemma RenderBool(cfg: Config, x: Int64)
    ensures Render(cfg, Val(true, BoolD(x))) == Emit(true, if x == 0 then "F" else "T")
  {
  }

  /** Empty strings, tables and vectors are the empty placeholder. */
  lemma RenderEmpty(cfg: Config, k: StringKind)
    ensures Render(cfg, Val(true, StringD(k, ""))) == Emit(true, cfg.emptyField)
    ensures Render(cfg, Val(true, TableD([]))) == Emit(true, cfg.emptyField)
    ensures Render(cfg, Val(true, VectorD([]))) == Emit(true, cfg.emptyField)
  {
  }

  /** A non-empty string is never written as the unset placeholder: one that equals
      it has its first byte escaped as `\x##` and the rest copied. */
  lemma StringNeverUnset(cfg: Config, s: string)
    requires s != []
    ensures StringText(cfg, s) != cfg.unsetField
    ensures s == cfg.unsetField ==>
      StringText(cfg, s)[..4] == "\\x" + Hex2(ByteOf(s[0])) && StringText(cfg, s)[4..] == s[1..]
  {
    if s == cfg.unsetField {
      assert |StringText(cfg, s)| == |s| + 3;
    }
  }

  /** Tables and vectors with elements are their elements' texts joined by the set
      separator; the first element that fails makes the whole value fail. */
  lemma RenderContainer(cfg: Config, vs: seq<Val>)
    requires vs != []
    ensures Render(cfg, Val(true, TableD(vs))) == Render(cfg, Val(true, VectorD(vs)))
    ensures Render(cfg, Val(true, VectorD(vs))).ok <==> AllRender(cfg, vs)
    ensures AllRender(cfg, vs) ==>
      Render(cfg, Val(true, VectorD(vs))).text == Join(cfg.setSeparator, Texts(cfg, vs))
  {
    JoinedIsJoin(cfg, cfg.setSeparator, vs);
  }

  /** Types the writer has no case for fail and write nothing. */
  lemma RenderUnsupported(cfg: Config, code: nat)
    ensures Render(cfg, Val(true, OtherD(code))) == Emit(false, "")
  {
  }

  // --------------------------------------------------------------- DoWrite

  /** The line `DoWrite` writes for a record, or `None` when a column fails. */
  function Line(cfg: Config, vals: seq<Val>): (line: Option<string>)
  {
    var j := Joined(cfg, cfg.separator, vals);
    if j.ok then Some(j.text + "\n") else None
  }

  /** With a one-character separator that no column's text contains, a reader
      splitting the line at the separator gets the columns back. */
  lemma LineSplits(cfg: Config, vals: seq<Val>)
    requires |cfg.separator| == 1 && vals != []
    requires AllRender(cfg, vals)
    requires forall i :: 0 <= i < |vals| ==> Free(cfg.separator[0], Render(cfg, vals[i]).text)
    ensures Line(cfg, vals).Some?
    ensures var l := Line(cfg, vals).value;
            l[|l| - 1] == '\n' && Split(cfg.separator[0], l[..|l| - 1]) == Texts(cfg, vals)
  {
    JoinedIsJoin(cfg, cfg.separator, vals);
    var c := cfg.separator[0];
    assert cfg.separator == [c];
    SplitJoin(c, Texts(cfg, vals));
    var l := Line(cfg, vals).value;
    assert l[..|l| - 1] == Join(cfg.separator, Texts(cfg, vals));
  }

  // ------------------------------------------------------------ the header

  /** `WriteHeaderField`: the prefix, the key, the separator, the value, a newline. */
  function HeaderLine(cfg: Config, key: string, val: string): string
  {
    cfg.headerPrefix + key + cfg.separator + val + "\n"
  }

  function FieldNames(fields: seq<LogField>): (names: seq<string>)
    ensures |names| == |fields|
    ensures forall i :: 0 <= i < |fields| ==> names[i] == fields[i].name
    decreases |fields|
  {
    if fields == [] then [] else FieldNames(fields[..|fields| - 1]) + [fields[|fields| - 1].name]
  }

  /** A column's type as the header names it: tables and vectors add their element type. */
  function FieldType(cfg: Config, f: LogField): string
  {
    if f.ty == TypeTable || f.ty == TypeVector then cfg.typeName(f.ty) + "[" + cfg.typeName(f.subtype) + "]"
    else cfg.typeName(f.ty)
  }

  function FieldTypes(cfg: Config, fields: seq<LogField>): (types: seq<string>)
    ensures |types| == |fields|
    ensures forall i :: 0 <= i < |fields| ==> types[i] == FieldType(cfg, fields[i])
    decreases |fields|
  {
    if fields == [] then [] else FieldTypes(cfg, fields[..|fields| - 1]) + [FieldType(cfg, fields[|fields| - 1])]
  }

  /** One column more in the `fields` and `types` header lines. */
  lemma HeaderStep(cfg: Config, fields: seq<LogField>, i: nat)
    requires i < |fields|
    ensures Join(cfg.separator, FieldNames(fields[..i + 1])) ==
      Join(cfg.separator, FieldNames(fields[..i])) + (if i > 0 then cfg.separator else "") + fields[i].name
    ensures Join(cfg.separator, FieldTypes(cfg, fields[..i + 1])) ==
      Join(cfg.separator, FieldTypes(cfg, fields[..i])) + (if i > 0 then cfg.separator else "") + FieldType(cfg, fields[i])
  {
    assert fields[..i + 1][..i] == fields[..i];
    JoinSnoc(cfg.separator, FieldNames(fields[..i]), fields[i].name);
    JoinSnoc(cfg.separator, FieldTypes(cfg, fields[..i]), FieldType(cfg, fields[i]));
  }

  /** The path the writer writes to: standard output when so configured. */
  function OutputPath(cfg: Config, path: string): string
  {
    if cfg.outputToStdout then "/dev/stdout" else path
  }

  /** The header `DoInit` writes. */
  function Header(cfg: Config, path: string, fields: seq<LogField>): string
  {
    cfg.headerPrefix + "separator " + Escaped(cfg.separator) + "\n"
    + HeaderLine(cfg, "path", OutputPath(cfg, path))
    + HeaderLine(cfg, "fields", Join(cfg.separator, FieldNames(fields)))
    + HeaderLine(cfg, "types", Join(cfg.separator, FieldTypes(cfg, fields)))
  }

  /** What the file holds right after `DoInit`. */
  function InitText(cfg: Config, path: string, fields: seq<LogField>): string
  {
    if cfg.includeHeader then Header(cfg, path, fields) else ""
  }

  lemma {:induction false} JoinCons(sep: string, x: string, xs: seq<string>)
    requires xs != []
    ensures Join(sep, [x] + xs) == x + sep + Join(sep, xs)
    decreases |xs|
  {
    if |xs| > 1 {
      var init := xs[..|xs| - 1];
      JoinCons(sep, x, init);
      assert ([x] + xs)[..|xs|] == [x] + init;
    } else {
      assert xs == [xs[0]];
    }
  }

  /** With a one-character separator that no name contains, the `fields` header line
      splits back into its key and the column names, in order. */
  lemma HeaderNamesSplit(cfg: Config, fields: seq<LogField>)
    requires |cfg.separator| == 1 && fields != []
    requires Free(cfg.separator[0], "fields")
    requires forall i :: 0 <= i < |fields| ==> Free(cfg.separator[0], fields[i].name)
    ensures var l := HeaderLine(cfg, "fields", Join(cfg.separator, FieldNames(fields)));
            var body := l[|cfg.headerPrefix|..|l| - 1];
            l[..|cfg.headerPrefix|] == cfg.headerPrefix && l[|l| - 1] == '\n' &&
            Split(cfg.separator[0], body) == ["fields"] + FieldNames(fields)
  {
    var c := cfg.separator[0];
    assert cfg.separator == [c];
    var names := FieldNames(fields);
    var cols := ["fields"] + names;
    assert forall i :: 0 <= i < |cols| ==> Free(c, cols[i]) by {
      forall i | 0 <= i < |cols|
        ensures Free(c, cols[i])
      {
        if i > 0 {
          assert cols[i] == fields[i - 1].name;
        }
      }
    }
    JoinCons(cfg.separator, "fields", names);
    SplitJoin(c, cols);
    HeaderLineParts(cfg, "fields", Join(cfg.separator, names));
  }

  lemma HeaderLineParts(cfg: Config, key: string, val: string)
    ensures var l := HeaderLine(cfg, key, val);
            |l| > |cfg.headerPrefix| &&
            l[..|cfg.headerPrefix|] == cfg.headerPrefix && l[|l| - 1] == '\n' &&
            l[|cfg.headerPrefix|..|l| - 1] == key + cfg.separator + val
  {
    var l := HeaderLine(cfg, key, val);
    AppendAssoc(cfg.headerPrefix + key, cfg.separator, val);
    AppendAssoc(cfg.headerPrefix, key, cfg.separator + val);
    assert l == cfg.headerPrefix + (key + cfg.separator + val) + "\n";
  }

  // ------------------------------------------------------------ the writer

  class Writer {
    const cfg: Config
    /** The `ODesc` a line is assembled in. */
    var desc: string
    /** Whether the log file is open. */
    var fileOpen: bool
    /** Everything written to the log file since it was opened. */
    var file: string

    constructor (cfg: Config)
      ensures this.cfg == cfg && desc == "" && !fileOpen && file == ""
    {
      this.cfg := cfg;
      desc := "";
      fileOpen := false;
      file := "";
    }

    /** `WriteHeaderField`. */
    method WriteHeaderField(key: string, val: string) returns (ok: bool)
      modifies this`file
      ensures ok && file == old(file) + HeaderLine(cfg, key, val)
    {
      var str := cfg.headerPrefix + key + cfg.separator + val + "\n";
      file := file + str;
      ok := true;
    }

    /** `DoInit`: opens the file (truncating it) and writes the header if configured. */
    method DoInit(path: string, fields: seq<LogField>) returns (ok: bool)
      modifies this`fileOpen, this`file
      ensures ok && fileOpen && file == InitText(cfg, path, fields)
    {
      var outPath := path;
      if cfg.outputToStdout {
        outPath := "/dev/stdout";
      }
      fileOpen := true;
      file := "";
      if cfg.includeHeader {
        var esc := EscapedString(cfg.separator);
        var str := cfg.headerPrefix + "separator " + esc + "\n";
        file := file + str;
        assert file == str;
        ok := WriteHeaderField("path", outPath);
        var names, types := HeaderColumns(fields);
        ok := WriteHeaderField("fields", names);
        ok := WriteHeaderField("types", types);
      }
      ok := true;
    }

    /** The loop of `DoInit` that assembles the `fields` and `types` header values. */
    method HeaderColumns(fields: seq<LogField>) returns (names: string, types: string)
      ensures names == Join(cfg.separator, FieldNames(fields))
      ensures types == Join(cfg.separator, FieldTypes(cfg, fields))
    {
      names, types := "", "";
      for i := 0 to |fields|
        invariant names == Join(cfg.separator, FieldNames(fields[..i]))
        invariant types == Join(cfg.separator, FieldTypes(cfg, fields[..i]))
      {
        ghost var sep := if i > 0 then cfg.separator else "";
        ghost var names0, types0 := names, types;
        if i > 0 {
          names := names + cfg.separator;
          types := types + cfg.separator;
        } else {
          assert names0 + sep == names0 && types0 + sep == types0;
        }
        var field := fields[i];
        names := names + field.name;
        var ty := cfg.typeName(field.ty);
        if field.ty == TypeTable || field.ty == TypeVector {
          ty := ty + "[" + cfg.typeName(field.subtype) + "]";
        }
        assert ty == FieldType(cfg, field);
        types := types + ty;
        HeaderStep(cfg, fields, i);
      }
      assert fields[..|fields|] == fields;
    }

    /** `DoWriteOne` on the writer's `ODesc`. */
    method WriteOne(v: Val) returns (ok: bool)
      modifies this`desc
      ensures ok == Render(cfg, v).ok
      ensures desc == old(desc) + Render(cfg, v).text
      decreases v, 1
    {
      if !v.present {
        desc := desc + cfg.unsetField;
        return true;
      }
      match v.datum {
        case BoolD(x) =>
          desc := desc + (if x != 0 then "T" else "F");
        case IntD(x) =>
          desc := desc + Decimal(x);
        case CountD(_, n) =>
          desc := desc + Decimal(n);
        case PortD(p) =>
          desc := desc + Decimal(p);
        case ExternalD(_, t) =>
          desc := desc + t;
        case StringD(_, s) =>
          if |s| == 0 {
            desc := desc + cfg.emptyField;
          } else {
            var data := s;
            if |s| == |cfg.unsetField| && s == cfg.unsetField {
              desc := desc + ("\\x" + Hex2(ByteOf(s[0])));
              data := s[1..];
            }
            if |data| > 0 {
              desc := desc + data;
            }
          }
        case TableD(vs) =>
          if |vs| == 0 {
            desc := desc + cfg.emptyField;
          } else {
            ok := WriteElements(vs);
            return;
          }
        case VectorD(vs) =>
          if |vs| == 0 {
            desc := desc + cfg.emptyField;
          } else {
            ok := WriteElements(vs);
            return;
          }
        case OtherD(_) =>
          return false;
      }
      ok := true;
    }

    /** The element loop of `DoWriteOne` for tables and vectors. */
    method WriteElements(vs: seq<Val>) returns (ok: bool)
      modifies this`desc
      ensures ok == Joined(cfg, cfg.setSeparator, vs).ok
      ensures desc == old(desc) + Joined(cfg, cfg.setSeparator, vs).text
      decreases vs, 0
    {
      var j := 0;
      while j < |vs|
        invariant 0 <= j <= |vs|
        invariant Joined(cfg, cfg.setSeparator, vs[..j]).ok
        invariant desc == old(desc) + Joined(cfg, cfg.setSeparator, vs[..j]).text
      {
        ghost var before := desc;
        ghost var comma := if j > 0 then cfg.setSeparator else "";
        if j > 0 {
          desc := desc + cfg.setSeparator;
        } else {
          assert desc == before + comma;
        }
        ok := WriteOne(vs[j]);
        JoinedStep(cfg, cfg.setSeparator, vs, j);
        AppendAssoc(old(desc), Joined(cfg, cfg.setSeparator, vs[..j]).text, comma);
        AppendAssoc(old(desc), Joined(cfg, cfg.setSeparator, vs[..j]).text + comma, Render(cfg, vs[j]).text);
        assert desc == old(desc) + Joined(cfg, cfg.setSeparator, vs[..j + 1]).text;
        if !ok {
          JoinedStops(cfg, cfg.setSeparator, vs, j + 1);
          return;
        }
        j := j + 1;
      }
      assert vs[..|vs|] == vs;
      ok := true;
    }

    /** `DoWrite`: opens the file on first use, assembles the record's line in `desc`
        and writes it, unless a column fails. */
    method DoWrite(path: string, fields: seq<LogField>, vals: seq<Val>) returns (ok: bool)
      modifies this
      ensures fileOpen
      ensures var start := if old(fileOpen) then old(file) else InitText(cfg, path, fields);
              var j := Joined(cfg, cfg.separator, vals);
              ok == j.ok &&
              desc == (if ok then j.text + "\n" else j.text) &&
              file == (if ok then start + desc else start)
      ensures ok <==> Line(cfg, vals).Some?
      ensures ok ==> desc == Line(cfg, vals).value
    {
      if !fileOpen {
        var _ := DoInit(path, fields);
      }
      desc := "";
      var i := 0;
      while i < |vals|
        invariant 0 <= i <= |vals|
        invariant fileOpen
        invariant file == (if old(fileOpen) then old(file) else InitText(cfg, path, fields))
        invariant Joined(cfg, cfg.separator, vals[..i]).ok
        invariant desc == Joined(cfg, cfg.separator, vals[..i]).text
      {
        assert vals[..i + 1][..i] == vals[..i];
        if i > 0 {
          desc := desc + cfg.separator;
        }
        ok := WriteOne(vals[i]);
        if !ok {
          JoinedStops(cfg, cfg.separator, vals, i + 1);
          return;
        }
        i := i + 1;
      }
      assert vals[..|vals|] == vals;
      desc := desc + "\n";
      file := file + desc;
      ok := true;
    }
  }

  /** Once a prefix fails, joining the whole sequence fails with the same text. */
  lemma {:induction false} JoinedStops(cfg: Config, sep: string, vs: seq<Val>, n: nat)
    requires n <= |vs| && !Joined(cfg, sep, vs[..n]).ok
    ensures Joined(cfg, sep, vs) == Joined(cfg, sep, vs[..n])
    decreases |vs| - n
  {
    if n < |vs| {
      assert vs[..n + 1][..n] == vs[..n];
      JoinedStops(cfg, sep, vs, n + 1);
    } else {
      assert vs[..n] == vs;
    }
  }
}
