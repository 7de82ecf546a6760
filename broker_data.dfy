/** The broker value type (`broker::data` in broker/data.hh): a closed tagged union
    over nine kinds, compared structurally, totally ordered, hashed consistently
    with that order, and built from native values by a fixed deduction rule.

    `set` and `table` are `std::set<data>` and `std::map<data, data>`: the model
    holds their contents as sequences in iteration order. Canonical states that
    they are ascending under the value order at every level of nesting, and
    CanonicalUnique draws the containers' uniqueness from it. */
module BrokerData {
  import opened Wrappers
  import opened Ints

  /** `data::tag`, in declaration order. */
  datatype Tag =
    | BooleanTag | IntegerTag | CountTag | RealTag | StringTag
    | SetTag | TableTag | VectorTag | RecordTag

  /** `data`: exactly one alternative is active. */
  datatype Data =
    | Bool(b: bool)
    | Int(i: Int64)
    | Count(n: UInt64)
    | Real(r: real)
    | Str(s: string)
    | SetOf(elems: seq<Data>)
    | TableOf(entries: seq<Entry>)
    | VectorOf(elems: seq<Data>)
    | RecordOf(rec: Record)

  /** `table::value_type`, the pair of a key and its value. */
  datatype Entry = Entry(key: Data, value: Data)

  /** `record::field`: an optional value. */
  type Field = Option<Data>

  /** `record`: a fixed sequence of optional fields. */
  datatype Record = Record(fields: seq<Field>)

  /** The tag of the active alternative: one tag per alternative. */
  function TagOf(d: Data): (t: Tag)
    ensures t == BooleanTag <==> d.Bool?
    ensures t == IntegerTag <==> d.Int?
    ensures t == CountTag <==> d.Count?
    ensures t == RealTag <==> d.Real?
    ensures t == StringTag <==> d.Str?
    ensures t == SetTag <==> d.SetOf?
    ensures t == TableTag <==> d.TableOf?
    ensures t == VectorTag <==> d.VectorOf?
    ensures t == RecordTag <==> d.RecordOf?
  {
    match d
    case Bool(_) => BooleanTag
    case Int(_) => IntegerTag
    case Count(_) => CountTag
    case Real(_) => RealTag
    case Str(_) => StringTag
    case SetOf(_) => SetTag
    case TableOf(_) => TableTag
    case VectorOf(_) => VectorTag
    case RecordOf(_) => RecordTag
  }

  // ----------------------------------------------------------------- record

  /** `record()`: no fields. */
  function EmptyRecord(): (r: Record)
    ensures Size(r) == 0
  {
    Record([])
  }

  /** `record::size()`: the number of fields the record was built from. */
  function Size(r: Record): (n: nat)
    ensures n == |r.fields|
  {
    |r.fields|
  }

  /** `record::get(index)`: the field's value if the index is in range and the field
      is present, and "no value" otherwise; the caller cannot tell the two misses apart. */
  function Get(r: Record, index: nat): (v: Option<Data>)
    ensures v.Some? <==> index < Size(r) && r.fields[index].Some?
    ensures index >= Size(r) ==> v == None
    ensures v.Some? ==> Some(v.value) == r.fields[index]
  {
    if index >= |r.fields| then None
    else if r.fields[index].None? then None
    else Some(r.fields[index].value)
  }

  /** Assignment through the non-const `record::get(index)`, which hands out a
      reference only where the const overload finds a value: `None` when there is
      nothing to assign to, otherwise the record with that one field replaced. */
  function AssignThroughGet(r: Record, index: nat, x: Data): (r': Option<Record>)
    ensures r'.Some? <==> Get(r, index).Some?
    ensures r'.Some? ==> Size(r'.value) == Size(r) && Get(r'.value, index) == Some(x)
    ensures r'.Some? ==> forall j :: j != index ==> Get(r'.value, j) == Get(r, j)
  {
    if Get(r, index).None? then None
    else Some(Record(r.fields[index := Some(x)]))
  }

  /** Size and get observe a record completely: two records that agree on both are equal. */
  lemma RecordDeterminedByGet(r: Record, s: Record)
    requires Size(r) == Size(s)
    requires forall i: nat :: Get(r, i) == Get(s, i)
    ensures r == s
  {
    forall i | 0 <= i < |r.fields|
      ensures r.fields[i] == s.fields[i]
    {
      assert Get(r, i) == Get(s, i);
    }
  }

  // ----------------------------------------------------------------- order

  /** The order between alternatives of different kinds is decided by the variant,
      whose source is not part of this model: a kind order is a rank per tag, and
      it must tell tags apart. */
  predicate TagOrder(rank: Tag -> nat)
  {
    forall s, t :: rank(s) == rank(t) ==> s == t
  }

  /** `operator<` on `data`: by kind first, then by the active alternatives. */
  function Less(rank: Tag -> nat, a: Data, b: Data): (below: bool)
    ensures TagOf(a) != TagOf(b) ==> (below <==> rank(TagOf(a)) < rank(TagOf(b)))
    ensures below ==> a != b
    decreases a
  {
    if TagOf(a) != TagOf(b) then rank(TagOf(a)) < rank(TagOf(b))
    else match (a, b)
      case (Bool(x), Bool(y)) => !x && y
      case (Int(x), Int(y)) => x < y
      case (Count(x), Count(y)) => x < y
      case (Real(x), Real(y)) => x < y
      case (Str(x), Str(y)) => StringLess(x, y)
      case (SetOf(xs), SetOf(ys)) => ElemsLess(rank, xs, ys)
      case (TableOf(xs), TableOf(ys)) => EntriesLess(rank, xs, ys)
      case (VectorOf(xs), VectorOf(ys)) => ElemsLess(rank, xs, ys)
      case (RecordOf(x), RecordOf(y)) => RecordLess(rank, x, y)
      case _ => false
  }

  /** `std::string` order: lexicographic by character. */
  function StringLess(xs: string, ys: string): (below: bool)
    ensures below ==> xs != ys
    decreases xs
  {
    if xs == [] then ys != []
    else if ys == [] then false
    else xs[0] < ys[0] || (xs[0] == ys[0] && StringLess(xs[1..], ys[1..]))
  }

  /** Lexicographic comparison of two element sequences (`std::set`, `std::vector`). */
  function ElemsLess(rank: Tag -> nat, xs: seq<Data>, ys: seq<Data>): (below: bool)
    ensures below ==> xs != ys
    decreases xs
  {
    if xs == [] then ys != []
    else if ys == [] then false
    else Less(rank, xs[0], ys[0]) || (xs[0] == ys[0] && ElemsLess(rank, xs[1..], ys[1..]))
  }

  /** `std::pair` order on table entries: by key, then by value. */
  function EntryLess(rank: Tag -> nat, x: Entry, y: Entry): (below: bool)
    ensures below ==> x != y
    decreases x
  {
    Less(rank, x.key, y.key) || (x.key == y.key && Less(rank, x.value, y.value))
  }

  /** Lexicographic comparison of two tables' entry sequences (`std::map`). */
  function EntriesLess(rank: Tag -> nat, xs: seq<Entry>, ys: seq<Entry>): (below: bool)
    ensures below ==> xs != ys
    decreases xs
  {
    if xs == [] then ys != []
    else if ys == [] then false
    else EntryLess(rank, xs[0], ys[0]) || (xs[0] == ys[0] && EntriesLess(rank, xs[1..], ys[1..]))
  }

  /** Order of optional fields: an absent field is below every present one. */
  function FieldLess(rank: Tag -> nat, x: Field, y: Field): (below: bool)
    ensures below ==> x != y
    decreases x
  {
    match (x, y)
    case (None, None) => false
    case (None, Some(_)) => true
    case (Some(_), None) => false
    case (Some(p), Some(q)) => Less(rank, p, q)
  }

  function FieldsLess(rank: Tag -> nat, xs: seq<Field>, ys: seq<Field>): (below: bool)
    ensures below ==> xs != ys
    decreases xs
  {
    if xs == [] then ys != []
    else if ys == [] then false
    else FieldLess(rank, xs[0], ys[0]) || (xs[0] == ys[0] && FieldsLess(rank, xs[1..], ys[1..]))
  }

  /** `operator<` on `record`: lexicographic over the field sequences. */
  function RecordLess(rank: Tag -> nat, x: Record, y: Record): (below: bool)
    ensures below ==> x != y
    decreases x
  {
    FieldsLess(rank, x.fields, y.fields)
  }

  // ------------------------------------------------ lexicographic order

  /** `std::lexicographical_compare` as the standard states it: a proper prefix is
      below, and otherwise the first position where the sequences differ decides. */
  predicate Lexicographic<T(==)>(below: (T, T) -> bool, xs: seq<T>, ys: seq<T>)
  {
    (|xs| < |ys| && xs == ys[..|xs|]) ||
    exists k :: 0 <= k < |xs| && k < |ys| && xs[..k] == ys[..k] && below(xs[k], ys[k])
  }

  /** One step of the element-by-element comparison the containers use. */
  predicate LexStep<T(==)>(less: (seq<T>, seq<T>) -> bool, below: (T, T) -> bool, xs: seq<T>, ys: seq<T>)
  {
    if xs == [] then ys != []
    else if ys == [] then false
    else below(xs[0], ys[0]) || (xs[0] == ys[0] && less(xs[1..], ys[1..]))
  }

  /** A sequence order that compares element by element is the lexicographic order. */
  lemma {:induction false} LexicographicSteps<T>(less: (seq<T>, seq<T>) -> bool, below: (T, T) -> bool,
                                                xs: seq<T>, ys: seq<T>)
    requires forall a, b :: less(a, b) == LexStep(less, below, a, b)
    ensures less(xs, ys) <==> Lexicographic(below, xs, ys)
    decreases |xs|
  {
    assert less(xs, ys) == LexStep(less, below, xs, ys);
    if xs == [] || ys == [] {
      if xs == [] && ys != [] {
        assert xs == ys[..0];
      }
    } else {
      LexicographicSteps(less, below, xs[1..], ys[1..]);
      LexicographicHead(below, xs, ys);
    }
  }

  /** The lexicographic order of non-empty sequences: the heads decide, or they are
      equal and the tails decide. */
  lemma LexicographicHead<T>(below: (T, T) -> bool, xs: seq<T>, ys: seq<T>)
    requires xs != [] && ys != []
    ensures Lexicographic(below, xs, ys) <==>
            below(xs[0], ys[0]) || (xs[0] == ys[0] && Lexicographic(below, xs[1..], ys[1..]))
  {
    if Lexicographic(below, xs, ys) && !below(xs[0], ys[0]) {
      LexicographicToTail(below, xs, ys);
    }
    if below(xs[0], ys[0]) {
      assert xs[..0] == ys[..0];
    } else if xs[0] == ys[0] && Lexicographic(below, xs[1..], ys[1..]) {
      LexicographicFromTail(below, xs, ys);
    }
  }

  lemma LexicographicToTail<T>(below: (T, T) -> bool, xs: seq<T>, ys: seq<T>)
    requires xs != [] && ys != []
    requires Lexicographic(below, xs, ys) && !below(xs[0], ys[0])
    ensures xs[0] == ys[0] && Lexicographic(below, xs[1..], ys[1..])
  {
    var xs', ys' := xs[1..], ys[1..];
    if |xs| < |ys| && xs == ys[..|xs|] {
      assert xs[0] == ys[0];
      assert xs' == ys'[..|xs'|];
    } else {
      var k :| 0 <= k < |xs| && k < |ys| && xs[..k] == ys[..k] && below(xs[k], ys[k]);
      assert k != 0;
      assert xs[0] == xs[..k][0] && ys[0] == ys[..k][0];
      assert xs'[..k - 1] == xs[..k][1..] && ys'[..k - 1] == ys[..k][1..];
      assert xs'[k - 1] == xs[k] && ys'[k - 1] == ys[k];
    }
  }

  lemma LexicographicFromTail<T>(below: (T, T) -> bool, xs: seq<T>, ys: seq<T>)
    requires xs != [] && ys != []
    requires xs[0] == ys[0] && Lexicographic(below, xs[1..], ys[1..])
    ensures Lexicographic(below, xs, ys)
  {
    var xs', ys' := xs[1..], ys[1..];
    if |xs'| < |ys'| && xs' == ys'[..|xs'|] {
      assert xs == [xs[0]] + xs' && ys[..|xs|] == [ys[0]] + ys'[..|xs'|];
    } else {
      var k :| 0 <= k < |xs'| && k < |ys'| && xs'[..k] == ys'[..k] && below(xs'[k], ys'[k]);
      assert xs[..k + 1] == [xs[0]] + xs'[..k] && ys[..k + 1] == [ys[0]] + ys'[..k];
      assert xs[k + 1] == xs'[k] && ys[k + 1] == ys'[k];
    }
  }

  /** `std::string` `<` is lexicographic by character. */
  lemma StringLessLexicographic(xs: string, ys: string)
    ensures StringLess(xs, ys) <==> Lexicographic((p: char, q: char) => p < q, xs, ys)
  {
    var less := (a: string, b: string) => StringLess(a, b);
    var below := (p: char, q: char) => p < q;
    forall a, b ensures less(a, b) == LexStep(less, below, a, b) {}
    LexicographicSteps(less, below, xs, ys);
  }

  /** Sets and vectors compare lexicographically over their contents. */
  lemma ElemsLessLexicographic(rank: Tag -> nat, xs: seq<Data>, ys: seq<Data>)
    ensures ElemsLess(rank, xs, ys) <==> Lexicographic((p, q) => Less(rank, p, q), xs, ys)
  {
    var less := (a, b) => ElemsLess(rank, a, b);
    var below := (p, q) => Less(rank, p, q);
    forall a, b ensures less(a, b) == LexStep(less, below, a, b) {}
    LexicographicSteps(less, below, xs, ys);
  }

  /** Tables compare lexicographically over their entries, each entry by key and then value. */
  lemma EntriesLessLexicographic(rank: Tag -> nat, xs: seq<Entry>, ys: seq<Entry>)
    ensures EntriesLess(rank, xs, ys) <==> Lexicographic((p, q) => EntryLess(rank, p, q), xs, ys)
  {
    var less := (a, b) => EntriesLess(rank, a, b);
    var below := (p, q) => EntryLess(rank, p, q);
    forall a, b ensures less(a, b) == LexStep(less, below, a, b) {}
    LexicographicSteps(less, below, xs, ys);
  }

  /** Records compare lexicographically over their fields, an absent field below a present one. */
  lemma FieldsLessLexicographic(rank: Tag -> nat, xs: seq<Field>, ys: seq<Field>)
    ensures FieldsLess(rank, xs, ys) <==> Lexicographic((p, q) => FieldLess(rank, p, q), xs, ys)
  {
    var less := (a, b) => FieldsLess(rank, a, b);
    var below := (p, q) => FieldLess(rank, p, q);
    forall a, b ensures less(a, b) == LexStep(less, below, a, b) {}
    LexicographicSteps(less, below, xs, ys);
  }

  // ------------------------------------------------------- transitivity

  lemma {:induction false} StringLessTransitive(xs: string, ys: string, zs: string)
    requires StringLess(xs, ys) && StringLess(ys, zs)
    ensures StringLess(xs, zs)
    decreases xs
  {
    if xs != [] && xs[0] == ys[0] && ys[0] == zs[0] {
      StringLessTransitive(xs[1..], ys[1..], zs[1..]);
    }
  }

  /** The value order is transitive. */
  lemma {:induction false} LessTransitive(rank: Tag -> nat, a: Data, b: Data, c: Data)
    requires Less(rank, a, b) && Less(rank, b, c)
    ensures Less(rank, a, c)
    decreases a
  {
    if TagOf(a) == TagOf(b) == TagOf(c) {
      match a
      case Str(s) => StringLessTransitive(s, b.s, c.s);
      case SetOf(xs) => ElemsLessTransitive(rank, xs, b.elems, c.elems);
      case TableOf(xs) => EntriesLessTransitive(rank, xs, b.entries, c.entries);
      case VectorOf(xs) => ElemsLessTransitive(rank, xs, b.elems, c.elems);
      case RecordOf(r) => FieldsLessTransitive(rank, r.fields, b.rec.fields, c.rec.fields);
      case _ =>
    }
  }

  lemma {:induction false} ElemsLessTransitive(rank: Tag -> nat, xs: seq<Data>, ys: seq<Data>, zs: seq<Data>)
    requires ElemsLess(rank, xs, ys) && ElemsLess(rank, ys, zs)
    ensures ElemsLess(rank, xs, zs)
    decreases xs
  {
    if xs != [] {
      if Less(rank, xs[0], ys[0]) && Less(rank, ys[0], zs[0]) {
        LessTransitive(rank, xs[0], ys[0], zs[0]);
      } else if xs[0] == ys[0] && ys[0] == zs[0] {
        ElemsLessTransitive(rank, xs[1..], ys[1..], zs[1..]);
      }
    }
  }

  lemma {:induction false} EntryLessTransitive(rank: Tag -> nat, x: Entry, y: Entry, z: Entry)
    requires EntryLess(rank, x, y) && EntryLess(rank, y, z)
    ensures EntryLess(rank, x, z)
    decreases x
  {
    if Less(rank, x.key, y.key) && Less(rank, y.key, z.key) {
      LessTransitive(rank, x.key, y.key, z.key);
    } else if x.key == y.key && y.key == z.key {
      LessTransitive(rank, x.value, y.value, z.value);
    }
  }

  lemma {:induction false} EntriesLessTransitive(rank: Tag -> nat, xs: seq<Entry>, ys: seq<Entry>, zs: seq<Entry>)
    requires EntriesLess(rank, xs, ys) && EntriesLess(rank, ys, zs)
    ensures EntriesLess(rank, xs, zs)
    decreases xs
  {
    if xs != [] {
      if EntryLess(rank, xs[0], ys[0]) && EntryLess(rank, ys[0], zs[0]) {
        EntryLessTransitive(rank, xs[0], ys[0], zs[0]);
      } else if xs[0] == ys[0] && ys[0] == zs[0] {
        EntriesLessTransitive(rank, xs[1..], ys[1..], zs[1..]);
      }
    }
  }

  lemma {:induction false} FieldLessTransitive(rank: Tag -> nat, x: Field, y: Field, z: Field)
    requires FieldLess(rank, x, y) && FieldLess(rank, y, z)
    ensures FieldLess(rank, x, z)
    decreases x
  {
    if x.Some? {
      LessTransitive(rank, x.value, y.value, z.value);
    }
  }

  lemma {:induction false} FieldsLessTransitive(rank: Tag -> nat, xs: seq<Field>, ys: seq<Field>, zs: seq<Field>)
    requires FieldsLess(rank, xs, ys) && FieldsLess(rank, ys, zs)
    ensures FieldsLess(rank, xs, zs)
    decreases xs
  {
    if xs != [] {
      if FieldLess(rank, xs[0], ys[0]) && FieldLess(rank, ys[0], zs[0]) {
        FieldLessTransitive(rank, xs[0], ys[0], zs[0]);
      } else if xs[0] == ys[0] && ys[0] == zs[0] {
        FieldsLessTransitive(rank, xs[1..], ys[1..], zs[1..]);
      }
    }
  }

  // ----------------------------------------------------------- totality

  lemma {:induction false} StringLessTotal(xs: string, ys: string)
    ensures xs == ys || StringLess(xs, ys) || StringLess(ys, xs)
    decreases xs
  {
    if xs != [] && ys != [] && xs[0] == ys[0] {
      StringLessTotal(xs[1..], ys[1..]);
      assert xs == [xs[0]] + xs[1..] && ys == [ys[0]] + ys[1..];
    }
  }

  /** Any two values are equal or ordered one way round. */
  lemma {:induction false} LessTotal(rank: Tag -> nat, a: Data, b: Data)
    requires TagOrder(rank)
    ensures a == b || Less(rank, a, b) || Less(rank, b, a)
    decreases a
  {
    if TagOf(a) != TagOf(b) {
      assert rank(TagOf(a)) != rank(TagOf(b));
    } else {
      match (a, b)
      case (Str(x), Str(y)) => StringLessTotal(x, y);
      case (SetOf(xs), SetOf(ys)) => ElemsLessTotal(rank, xs, ys);
      case (TableOf(xs), TableOf(ys)) => EntriesLessTotal(rank, xs, ys);
      case (VectorOf(xs), VectorOf(ys)) => ElemsLessTotal(rank, xs, ys);
      case (RecordOf(x), RecordOf(y)) => FieldsLessTotal(rank, x.fields, y.fields);
      case _ =>
    }
  }

  lemma {:induction false} ElemsLessTotal(rank: Tag -> nat, xs: seq<Data>, ys: seq<Data>)
    requires TagOrder(rank)
    ensures xs == ys || ElemsLess(rank, xs, ys) || ElemsLess(rank, ys, xs)
    decreases xs
  {
    if xs != [] && ys != [] {
      LessTotal(rank, xs[0], ys[0]);
      if xs[0] == ys[0] {
        ElemsLessTotal(rank, xs[1..], ys[1..]);
        assert xs == [xs[0]] + xs[1..] && ys == [ys[0]] + ys[1..];
      }
    }
  }

  lemma {:induction false} EntryLessTotal(rank: Tag -> nat, x: Entry, y: Entry)
    requires TagOrder(rank)
    ensures x == y || EntryLess(rank, x, y) || EntryLess(rank, y, x)
    decreases x
  {
    LessTotal(rank, x.key, y.key);
    LessTotal(rank, x.value, y.value);
  }

  lemma {:induction false} EntriesLessTotal(rank: Tag -> nat, xs: seq<Entry>, ys: seq<Entry>)
    requires TagOrder(rank)
    ensures xs == ys || EntriesLess(rank, xs, ys) || EntriesLess(rank, ys, xs)
    decreases xs
  {
    if xs != [] && ys != [] {
      EntryLessTotal(rank, xs[0], ys[0]);
      if xs[0] == ys[0] {
        EntriesLessTotal(rank, xs[1..], ys[1..]);
        assert xs == [xs[0]] + xs[1..] && ys == [ys[0]] + ys[1..];
      }
    }
  }

  lemma {:induction false} FieldLessTotal(rank: Tag -> nat, x: Field, y: Field)
    requires TagOrder(rank)
    ensures x == y || FieldLess(rank, x, y) || FieldLess(rank, y, x)
    decreases x
  {
    if x.Some? && y.Some? {
      LessTotal(rank, x.value, y.value);
    }
  }

  lemma {:induction false} FieldsLessTotal(rank: Tag -> nat, xs: seq<Field>, ys: seq<Field>)
    requires TagOrder(rank)
    ensures xs == ys || FieldsLess(rank, xs, ys) || FieldsLess(rank, ys, xs)
    decreases xs
  {
    if xs != [] && ys != [] {
      FieldLessTotal(rank, xs[0], ys[0]);
      if xs[0] == ys[0] {
        FieldsLessTotal(rank, xs[1..], ys[1..]);
        assert xs == [xs[0]] + xs[1..] && ys == [ys[0]] + ys[1..];
      }
    }
  }

  /** `totally_ordered<data>`: exactly one of `a < b`, `b < a`, `a == b` holds, and
      `==` is the equivalence the order induces (so the `!(b < a)` that the standard
      containers' lexicographic comparison uses agrees with the `==` used here). */
  lemma StrictTotalOrder(rank: Tag -> nat, a: Data, b: Data)
    requires TagOrder(rank)
    ensures a == b <==> !Less(rank, a, b) && !Less(rank, b, a)
    ensures !(Less(rank, a, b) && Less(rank, b, a))
  {
    LessTotal(rank, a, b);
    if Less(rank, a, b) && Less(rank, b, a) {
      LessTransitive(rank, a, b, a);
    }
  }

  /** Values of different kinds are never equal, and their order is the kind order. */
  lemma DifferentKinds(rank: Tag -> nat, a: Data, b: Data)
    requires TagOf(a) != TagOf(b)
    ensures a != b
    ensures Less(rank, a, b) <==> rank(TagOf(a)) < rank(TagOf(b))
  {
  }

  /** Record `<` is the lexicographic order of the field sequences, and record `==`
      is the equivalence it induces. */
  lemma RecordOrder(rank: Tag -> nat, x: Record, y: Record)
    requires TagOrder(rank)
    ensures RecordLess(rank, x, y) <==> Lexicographic((p, q) => FieldLess(rank, p, q), x.fields, y.fields)
    ensures x == y <==> !RecordLess(rank, x, y) && !RecordLess(rank, y, x)
  {
    FieldsLessLexicographic(rank, x.fields, y.fields);
    FieldsLessTotal(rank, x.fields, y.fields);
    if FieldsLess(rank, x.fields, y.fields) && FieldsLess(rank, y.fields, x.fields) {
      FieldsLessTransitive(rank, x.fields, y.fields, x.fields);
    }
  }

  /** A vector that is a proper prefix of another orders first, and the first
      differing element decides otherwise, whatever the lengths. */
  lemma VectorOrderExamples(rank: Tag -> nat)
    ensures Less(rank, VectorOf([Int(1), Int(2)]), VectorOf([Int(1), Int(2), Int(3)]))
    ensures Less(rank, VectorOf([Int(1), Int(2), Int(9)]), VectorOf([Int(1), Int(3)]))
    ensures !Less(rank, VectorOf([Int(1), Int(3)]), VectorOf([Int(1), Int(2), Int(9)]))
  {
    var short, long := [Int(1), Int(2)], [Int(1), Int(2), Int(3)];
    ElemsLessLexicographic(rank, short, long);
    assert short == long[..|short|];
    var xs, ys := [Int(1), Int(2), Int(9)], [Int(1), Int(3)];
    ElemsLessLexicographic(rank, xs, ys);
    assert xs[..1] == ys[..1] && Less(rank, xs[1], ys[1]);
    if Less(rank, VectorOf(ys), VectorOf(xs)) {
      LessTransitive(rank, VectorOf(xs), VectorOf(ys), VectorOf(xs));
    }
  }

  // --------------------------------------------------------- canonical form

  /** Ascending without repeats, as a `std::set` iterates. */
  predicate Ascending(rank: Tag -> nat, xs: seq<Data>)
  {
    forall i :: 0 < i < |xs| ==> Less(rank, xs[i - 1], xs[i])
  }

  function Keys(es: seq<Entry>): (ks: seq<Data>)
    ensures |ks| == |es| && forall i :: 0 <= i < |es| ==> ks[i] == es[i].key
  {
    if es == [] then [] else [es[0].key] + Keys(es[1..])
  }

  /** The invariant the standard containers keep: every set's elements and every
      table's keys are ascending, at every level of nesting. */
  predicate Canonical(rank: Tag -> nat, d: Data)
    decreases d
  {
    match d
    case SetOf(xs) => Ascending(rank, xs) && AllCanonical(rank, xs)
    case TableOf(es) => Ascending(rank, Keys(es)) && EntriesCanonical(rank, es)
    case VectorOf(xs) => AllCanonical(rank, xs)
    case RecordOf(r) => FieldsCanonical(rank, r.fields)
    case _ => true
  }

  predicate AllCanonical(rank: Tag -> nat, xs: seq<Data>)
    decreases xs
  {
    xs != [] ==> Canonical(rank, xs[0]) && AllCanonical(rank, xs[1..])
  }

  predicate EntryCanonical(rank: Tag -> nat, e: Entry)
    decreases e
  {
    Canonical(rank, e.key) && Canonical(rank, e.value)
  }

  predicate EntriesCanonical(rank: Tag -> nat, es: seq<Entry>)
    decreases es
  {
    es != [] ==> EntryCanonical(rank, es[0]) && EntriesCanonical(rank, es[1..])
  }

  predicate FieldsCanonical(rank: Tag -> nat, fs: seq<Field>)
    decreases fs
  {
    fs != [] ==> FieldCanonical(rank, fs[0]) && FieldsCanonical(rank, fs[1..])
  }

  predicate FieldCanonical(rank: Tag -> nat, f: Field)
    decreases f
  {
    f.Some? ==> Canonical(rank, f.value)
  }

  /** In an ascending sequence every earlier element is below every later one. */
  lemma {:induction false} AscendingPairwise(rank: Tag -> nat, xs: seq<Data>, i: nat, j: nat)
    requires Ascending(rank, xs)
    requires i < j < |xs|
    ensures Less(rank, xs[i], xs[j])
    decreases j - i
  {
    if i + 1 < j {
      AscendingPairwise(rank, xs, i + 1, j);
      LessTransitive(rank, xs[i], xs[i + 1], xs[j]);
    }
  }

  /** A set holds unique elements and a table unique keys. */
  lemma AscendingUnique(rank: Tag -> nat, xs: seq<Data>)
    requires Ascending(rank, xs)
    ensures forall i, j :: 0 <= i < j < |xs| ==> xs[i] != xs[j]
  {
    forall i, j | 0 <= i < j < |xs|
      ensures xs[i] != xs[j]
    {
      AscendingPairwise(rank, xs, i, j);
    }
  }

  /** The first element of an ascending sequence is below every element of it
      but itself. */
  lemma AscendingHeadIsLeast(rank: Tag -> nat, xs: seq<Data>, y: Data)
    requires Ascending(rank, xs) && xs != []
    requires y in xs && y != xs[0]
    ensures Less(rank, xs[0], y)
  {
    var j :| 0 <= j < |xs| && xs[j] == y;
    AscendingPairwise(rank, xs, 0, j);
  }

  /** The containers' invariant gives what `std::set` and `std::map` promise: no
      element of a set and no key of a table occurs twice. */
  lemma CanonicalUnique(rank: Tag -> nat, d: Data)
    requires Canonical(rank, d)
    ensures d.SetOf? ==> forall i, j :: 0 <= i < j < |d.elems| ==> d.elems[i] != d.elems[j]
    ensures d.TableOf? ==> forall i, j :: 0 <= i < j < |d.entries| ==> d.entries[i].key != d.entries[j].key
  {
    match d
    case SetOf(xs) => AscendingUnique(rank, xs);
    case TableOf(es) =>
      var ks := Keys(es);
      AscendingUnique(rank, ks);
      assert forall i :: 0 <= i < |es| ==> es[i].key == ks[i];
    case _ =>
  }

  function Elements(xs: seq<Data>): set<Data>
  {
    set x | x in xs
  }

  lemma ElementsEmpty(xs: seq<Data>)
    ensures Elements(xs) == {} <==> xs == []
  {
    if xs != [] {
      assert xs[0] in Elements(xs);
    }
  }

  /** The ascending representation is unique: two sets with the same elements have
      the same contents sequence, so insertion order leaves no trace and the
      structural `==` of sets is equality of their elements. */
  lemma {:induction false} AscendingDeterminedByElements(rank: Tag -> nat, xs: seq<Data>, ys: seq<Data>)
    requires TagOrder(rank)
    requires Ascending(rank, xs) && Ascending(rank, ys)
    requires Elements(xs) == Elements(ys)
    ensures xs == ys
    decreases |xs|
  {
    ElementsEmpty(xs);
    ElementsEmpty(ys);
    if xs != [] && ys != [] {
      assert xs[0] in Elements(ys);
      assert ys[0] in Elements(xs);
      if xs[0] != ys[0] {
        AscendingHeadIsLeast(rank, xs, ys[0]);
        AscendingHeadIsLeast(rank, ys, xs[0]);
        StrictTotalOrder(rank, xs[0], ys[0]);
      }
      AscendingUnique(rank, xs);
      AscendingUnique(rank, ys);
      var xs', ys' := xs[1..], ys[1..];
      assert Elements(xs') == Elements(ys') by {
        forall z | z in xs' ensures z in ys' {
          var i :| 0 <= i < |xs'| && xs'[i] == z;
          assert xs[i + 1] == z && z != xs[0];
          assert z in Elements(ys);
          var j :| 0 <= j < |ys| && ys[j] == z;
          assert j != 0;
          assert ys'[j - 1] == z;
        }
        forall z | z in ys' ensures z in xs' {
          var j :| 0 <= j < |ys'| && ys'[j] == z;
          assert ys[j + 1] == z && z != ys[0];
          assert z in Elements(xs);
          var i :| 0 <= i < |xs| && xs[i] == z;
          assert i != 0;
          assert xs'[i - 1] == z;
        }
      }
      AscendingDeterminedByElements(rank, xs', ys');
      assert xs == [xs[0]] + xs' && ys == [ys[0]] + ys';
    }
  }

  // ----------------------------------------------------------------- hash

  /** The parts of hashing whose source is not part of this model: `hash_combine`,
      the hashes of the scalar alternatives and of the tag, and the hash of an empty
      `optional`. Only their being functions matters here. */
  datatype Hasher = Hasher(
    combine: (nat, nat) -> nat,
    tagHash: Tag -> nat,
    boolHash: bool -> nat,
    intHash: Int64 -> nat,
    countHash: UInt64 -> nat,
    realHash: real -> nat,
    stringHash: string -> nat,
    absentHash: nat)

  /** `container_hasher`'s loop: each hash in turn combined into the running value,
      starting from the seed. */
  function Fold(combine: (nat, nat) -> nat, seed: nat, hs: seq<nat>): nat
    decreases hs
  {
    if hs == [] then seed else Fold(combine, combine(seed, hs[0]), hs[1..])
  }

  /** Folding one more hash combines it into the fold of the others. */
  lemma {:induction false} FoldSnoc(combine: (nat, nat) -> nat, seed: nat, hs: seq<nat>, x: nat)
    ensures Fold(combine, seed, hs + [x]) == combine(Fold(combine, seed, hs), x)
    decreases hs
  {
    if hs == [] {
      assert [x][1..] == [];
    } else {
      assert (hs + [x])[1..] == hs[1..] + [x];
      FoldSnoc(combine, combine(seed, hs[0]), hs[1..], x);
    }
  }

  /** `std::hash<data>`: the variant's hash, taken as the tag's hash combined with
      the active alternative's. */
  function Hash(h: Hasher, d: Data): (r: nat)
    ensures d.SetOf? || d.VectorOf? ==> r == h.combine(h.tagHash(TagOf(d)), Fold(h.combine, 0, ElemHashes(h, d.elems)))
    ensures d.TableOf? ==> r == h.combine(h.tagHash(TableTag), Fold(h.combine, 0, EntryHashes(h, d.entries)))
    ensures d.RecordOf? ==> r == h.combine(h.tagHash(RecordTag), Fold(h.combine, 0, FieldHashes(h, d.rec.fields)))
    decreases d, 2
  {
    h.combine(h.tagHash(TagOf(d)), AlternativeHash(h, d))
  }

  function AlternativeHash(h: Hasher, d: Data): nat
    decreases d, 1
  {
    match d
    case Bool(x) => h.boolHash(x)
    case Int(x) => h.intHash(x)
    case Count(x) => h.countHash(x)
    case Real(x) => h.realHash(x)
    case Str(x) => h.stringHash(x)
    case SetOf(xs) => ElemsHash(h, xs)
    case TableOf(es) => EntriesHash(h, es)
    case VectorOf(xs) => ElemsHash(h, xs)
    case RecordOf(r) => RecordHash(h, r)
  }

  /** The elements' hashes, in iteration order. */
  function ElemHashes(h: Hasher, xs: seq<Data>): (hs: seq<nat>)
    ensures |hs| == |xs|
    decreases xs, 0
  {
    if xs == [] then [] else ElemHashes(h, xs[..|xs| - 1]) + [Hash(h, xs[|xs| - 1])]
  }

  /** `container_hasher` over sets and vectors: the elements' hashes folded into a
      zero seed, in iteration order. */
  function ElemsHash(h: Hasher, xs: seq<Data>): (r: nat)
    ensures r == Fold(h.combine, 0, ElemHashes(h, xs))
    decreases xs, 1
  {
    if xs == [] then 0
    else
      FoldSnoc(h.combine, 0, ElemHashes(h, xs[..|xs| - 1]), Hash(h, xs[|xs| - 1]));
      h.combine(ElemsHash(h, xs[..|xs| - 1]), Hash(h, xs[|xs| - 1]))
  }

  /** `std::hash<table::value_type>`: the key's hash and then the value's, folded
      into a zero seed. */
  function EntryHash(h: Hasher, e: Entry): (r: nat)
    ensures r == Fold(h.combine, 0, [Hash(h, e.key), Hash(h, e.value)])
    decreases e
  {
    var k, v := Hash(h, e.key), Hash(h, e.value);
    assert [k][1..] == [] && [k, v] == [k] + [v];
    FoldSnoc(h.combine, 0, [k], v);
    h.combine(h.combine(0, Hash(h, e.key)), Hash(h, e.value))
  }

  function EntryHashes(h: Hasher, es: seq<Entry>): (hs: seq<nat>)
    ensures |hs| == |es|
    decreases es, 0
  {
    if es == [] then [] else EntryHashes(h, es[..|es| - 1]) + [EntryHash(h, es[|es| - 1])]
  }

  /** `container_hasher` over a table: the entries' hashes folded into a zero seed, in
      key order. */
  function EntriesHash(h: Hasher, es: seq<Entry>): (r: nat)
    ensures r == Fold(h.combine, 0, EntryHashes(h, es))
    decreases es, 1
  {
    if es == [] then 0
    else
      FoldSnoc(h.combine, 0, EntryHashes(h, es[..|es| - 1]), EntryHash(h, es[|es| - 1]));
      h.combine(EntriesHash(h, es[..|es| - 1]), EntryHash(h, es[|es| - 1]))
  }

  /** The hash of an optional field: the value's hash, or a fixed hash when absent. */
  function FieldHash(h: Hasher, f: Field): nat
    decreases f
  {
    match f
    case None => h.absentHash
    case Some(x) => Hash(h, x)
  }

  function FieldHashes(h: Hasher, fs: seq<Field>): (hs: seq<nat>)
    ensures |hs| == |fs|
    decreases fs, 0
  {
    if fs == [] then [] else FieldHashes(h, fs[..|fs| - 1]) + [FieldHash(h, fs[|fs| - 1])]
  }

  function FieldsHash(h: Hasher, fs: seq<Field>): (r: nat)
    ensures r == Fold(h.combine, 0, FieldHashes(h, fs))
    decreases fs, 1
  {
    if fs == [] then 0
    else
      FoldSnoc(h.combine, 0, FieldHashes(h, fs[..|fs| - 1]), FieldHash(h, fs[|fs| - 1]));
      h.combine(FieldsHash(h, fs[..|fs| - 1]), FieldHash(h, fs[|fs| - 1]))
  }

  /** `std::hash<record>`: the container hash of the field sequence, an absent field
      contributing the absent hash. */
  function RecordHash(h: Hasher, r: Record): (v: nat)
    ensures v == Fold(h.combine, 0, FieldHashes(h, r.fields))
    decreases r
  {
    FieldsHash(h, r.fields)
  }

  /** The hash agrees with the order: values that neither order before the other
      hash alike, so ordered and hashed containers see the same duplicates. */
  lemma HashRespectsOrder(rank: Tag -> nat, h: Hasher, a: Data, b: Data)
    requires TagOrder(rank)
    requires !Less(rank, a, b) && !Less(rank, b, a)
    ensures Hash(h, a) == Hash(h, b)
  {
    LessTotal(rank, a, b);
  }

  // ---------------------------------------------------------- construction

  /** Which of the four container aliases a native type is exactly (`std::is_same`). */
  datatype Alias = NoAlias | SetAlias | TableAlias | VectorAlias | RecordAlias

  /** The type traits the deduction consults for a (decayed) native type `T`. */
  datatype NativeType = NativeType(
    isFloatingPoint: bool,
    isBool: bool,
    isUnsigned: bool,
    isSigned: bool,
    convertibleToString: bool,
    alias: Alias,
    sameOrDerivedFromData: bool)

  /** Whether a type has one of the arithmetic traits the deduction tests first. */
  predicate Primitive(t: NativeType)
  {
    t.isFloatingPoint || t.isBool || t.isUnsigned || t.isSigned
  }

  /** Whether a type is deduced before the container aliases are consulted. */
  predicate Scalar(t: NativeType)
  {
    Primitive(t) || t.convertibleToString
  }

  /** `data::type<T>` and the constructor's constraint: the alternative a native type
      becomes, first match wins, or `None` where the constructor is disabled. */
  function Deduce(t: NativeType): (k: Option<Tag>)
    ensures t.sameOrDerivedFromData ==> k == None
    ensures k == Some(RealTag) <==> !t.sameOrDerivedFromData && t.isFloatingPoint
    ensures k == Some(BooleanTag) <==> !t.sameOrDerivedFromData && !t.isFloatingPoint && t.isBool
    ensures k == Some(CountTag) <==>
              !t.sameOrDerivedFromData && !t.isFloatingPoint && !t.isBool && t.isUnsigned
    ensures k == Some(IntegerTag) <==>
              !t.sameOrDerivedFromData && !t.isFloatingPoint && !t.isBool && !t.isUnsigned && t.isSigned
    ensures k == Some(StringTag) <==> !t.sameOrDerivedFromData && !Primitive(t) && t.convertibleToString
    ensures k == Some(SetTag) <==> !t.sameOrDerivedFromData && !Scalar(t) && t.alias == SetAlias
    ensures k == Some(TableTag) <==> !t.sameOrDerivedFromData && !Scalar(t) && t.alias == TableAlias
    ensures k == Some(VectorTag) <==> !t.sameOrDerivedFromData && !Scalar(t) && t.alias == VectorAlias
    ensures k == Some(RecordTag) <==> !t.sameOrDerivedFromData && !Scalar(t) && t.alias == RecordAlias
    ensures k == None <==> t.sameOrDerivedFromData || (!Scalar(t) && t.alias == NoAlias)
  {
    if t.sameOrDerivedFromData then None
    else if t.isFloatingPoint then Some(RealTag)
    else if t.isBool then Some(BooleanTag)
    else if t.isUnsigned then Some(CountTag)
    else if t.isSigned then Some(IntegerTag)
    else if t.convertibleToString then Some(StringTag)
    else match t.alias
      case SetAlias => Some(SetTag)
      case TableAlias => Some(TableTag)
      case VectorAlias => Some(VectorTag)
      case RecordAlias => Some(RecordTag)
      case NoAlias => None
  }

  // The traits of some native types, as the standard library reports them.
  const BoolType := NativeType(false, true, true, false, false, NoAlias, false)
  const Int32Type := NativeType(false, false, false, true, false, NoAlias, false)
  const UInt8Type := NativeType(false, false, true, false, false, NoAlias, false)
  const DoubleType := NativeType(true, false, false, true, false, NoAlias, false)
  const CStringType := NativeType(false, false, false, false, true, NoAlias, false)
  const StdStringType := NativeType(false, false, false, false, true, NoAlias, false)
  const VectorType := NativeType(false, false, false, false, false, VectorAlias, false)
  const DataType := NativeType(false, false, false, false, false, NoAlias, true)
  const PointerType := NativeType(false, false, false, false, false, NoAlias, false)

  /** `bool` is an unsigned type to the standard library, yet it becomes a boolean,
      never a count; the other examples land where the deduction order says. */
  lemma DeductionExamples()
    ensures Deduce(BoolType) == Some(BooleanTag)
    ensures Deduce(Int32Type) == Some(IntegerTag)
    ensures Deduce(UInt8Type) == Some(CountTag)
    ensures Deduce(DoubleType) == Some(RealTag)
    ensures Deduce(CStringType) == Some(StringTag) && Deduce(StdStringType) == Some(StringTag)
    ensures Deduce(VectorType) == Some(VectorTag)
    ensures Deduce(DataType) == None && Deduce(PointerType) == None
  {
  }

  /** A native value, by representation. */
  datatype Native =
    | NativeNumber(x: int)
    | NativeFloat(r: real)
    | NativeText(s: string)
    | NativeContainer(d: Data)

  /** That a native value is a value of the native type it claims, so that the
      conversion to the deduced alternative is value-preserving. */
  predicate OfType(t: NativeType, v: Native)
  {
    match v
    case NativeNumber(x) =>
      !t.isFloatingPoint && (t.isBool ==> 0 <= x <= 1) &&
      (t.isUnsigned ==> 0 <= x < 0x1_0000_0000_0000_0000) &&
      (t.isSigned ==> -0x8000_0000_0000_0000 <= x < 0x8000_0000_0000_0000) &&
      (t.isBool || t.isUnsigned || t.isSigned)
    case NativeFloat(_) => t.isFloatingPoint
    case NativeText(_) =>
      !t.isFloatingPoint && !t.isBool && !t.isUnsigned && !t.isSigned && t.convertibleToString
    case NativeContainer(d) =>
      !t.isFloatingPoint && !t.isBool && !t.isUnsigned && !t.isSigned && !t.convertibleToString &&
      match t.alias
      case SetAlias => d.SetOf?
      case TableAlias => d.TableOf?
      case VectorAlias => d.VectorOf?
      case RecordAlias => d.RecordOf?
      case NoAlias => false
  }

  /** The constrained constructor `data(T&& x)`: converts `x` to the deduced
      alternative; a disabled constructor is `None`. */
  function Construct(t: NativeType, v: Native): (d: Option<Data>)
    requires OfType(t, v)
    ensures d.Some? <==> Deduce(t).Some?
    ensures d.Some? ==> Some(TagOf(d.value)) == Deduce(t)
    ensures d.Some? && v.NativeNumber? && d.value.Bool? ==> (d.value.b <==> v.x == 1)
    ensures d.Some? && v.NativeNumber? && d.value.Int? ==> d.value.i == v.x
    ensures d.Some? && v.NativeNumber? && d.value.Count? ==> d.value.n == v.x
    ensures d.Some? && v.NativeFloat? ==> d.value == Real(v.r)
    ensures d.Some? && v.NativeText? ==> d.value == Str(v.s)
    ensures d.Some? && v.NativeContainer? ==> d.value == v.d
  {
    match Deduce(t)
    case None => None
    case Some(k) =>
      match v
      case NativeNumber(x) =>
        if k == BooleanTag then Some(Bool(x != 0))
        else if k == CountTag then Some(Count(x))
        else Some(Int(x))
      case NativeFloat(r) => Some(Real(r))
      case NativeText(s) => Some(Str(s))
      case NativeContainer(d) => Some(d)
  }

  /** Construction round trips: reading back a constructed scalar gives the native
      value and the expected tag. */
  lemma ConstructExamples()
    ensures Construct(BoolType, NativeNumber(1)) == Some(Bool(true))
    ensures Construct(Int32Type, NativeNumber(-5)) == Some(Int(-5))
    ensures Construct(UInt8Type, NativeNumber(5)) == Some(Count(5))
    ensures Construct(DoubleType, NativeFloat(3.14)) == Some(Real(3.14))
    ensures Construct(StdStringType, NativeText("hi")) == Some(Str("hi"))
  {
  }
}
