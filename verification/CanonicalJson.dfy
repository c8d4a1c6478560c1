/**
 * `canonical_json`: the text of a payload with the keys of every object sorted. The text is shown to
 * depend on, and to determine, exactly the JSON value the payload is.
 */
module CanonicalJson {
  import opened Basics
  import opened JsonText

  /** Sorted insertion by key. */
  function Insert(f: Field, fs: seq<Field>): seq<Field> {
    if fs == [] || Less(f.key, fs[0].key) then [f] + fs else [fs[0]] + Insert(f, fs[1..])
  }

  /** The payload with every dictionary, at every depth, listed in key order. */
  function SortKeys(v: Json): Json
    decreases v, 1
  {
    match v
    case Arr(items) => Arr(SortItems(items))
    case Obj(fields) => Obj(SortFields(fields))
    case _ => v
  }

  function SortItems(items: seq<Json>): seq<Json>
    decreases items, 0
  {
    if items == [] then [] else [SortKeys(items[0])] + SortItems(items[1..])
  }

  function SortFields(fields: seq<Field>): seq<Field>
    decreases fields, 0
  {
    if fields == [] then []
    else Insert(Field(fields[0].key, SortKeys(fields[0].value)), SortFields(fields[1..]))
  }

  /** `json.dumps(payload, sort_keys=True, separators=(",", ":"), ensure_ascii=True)`. */
  function CanonicalText(v: Json): string {
    Print(SortKeys(v))
  }

  // ----------------------------------------------------- what a payload means

  /** JSON values with dictionaries as mappings. (Python also equates `True` and `1`; their texts differ.) */
  datatype Meaning =
    | MNull
    | MBool(b: bool)
    | MNum(n: int)
    | MStr(s: string)
    | MArr(items: seq<Meaning>)
    | MObj(entries: map<string, Meaning>)

  function Denote(v: Json): Meaning
    decreases v, 1
  {
    match v
    case Null => MNull
    case Bool(b) => MBool(b)
    case Num(n) => MNum(n)
    case Str(s) => MStr(s)
    case Arr(items) => MArr(DenoteItems(items))
    case Obj(fields) => MObj(DenoteFields(fields))
  }

  function DenoteItems(items: seq<Json>): (r: seq<Meaning>)
    decreases items, 0
  {
    if items == [] then [] else [Denote(items[0])] + DenoteItems(items[1..])
  }

  function DenoteFields(fields: seq<Field>): map<string, Meaning>
    decreases fields, 0
  {
    if fields == [] then map[] else DenoteFields(fields[1..])[fields[0].key := Denote(fields[0].value)]
  }

  /** A dictionary holds each key once. */
  ghost predicate WellFormed(v: Json)
    decreases v, 1
  {
    match v
    case Arr(items) => WellFormedItems(items)
    case Obj(fields) => WellFormedFields(fields)
    case _ => true
  }

  ghost predicate WellFormedItems(items: seq<Json>)
    decreases items, 0
  {
    items != [] ==> WellFormed(items[0]) && WellFormedItems(items[1..])
  }

  ghost predicate WellFormedFields(fields: seq<Field>)
    decreases fields, 0
  {
    fields != [] ==>
      && WellFormed(fields[0].value)
      && WellFormedFields(fields[1..])
      && fields[0].key !in DenoteFields(fields[1..])
  }

  // ------------------------------------------------ sorting keeps the meaning

  ghost predicate Ordered(fs: seq<Field>) {
    forall i, j :: 0 <= i < j < |fs| ==> Less(fs[i].key, fs[j].key)
  }

  lemma {:induction false} KeysDenoted(fs: seq<Field>, k: string)
    ensures k in DenoteFields(fs) <==> exists i :: 0 <= i < |fs| && fs[i].key == k
  {
    if fs != [] {
      KeysDenoted(fs[1..], k);
      if k in DenoteFields(fs[1..]) {
        var i :| 0 <= i < |fs[1..]| && fs[1..][i].key == k;
        assert fs[i + 1].key == k;
      } else if exists i :: 0 <= i < |fs| && fs[i].key == k {
        var i :| 0 <= i < |fs| && fs[i].key == k;
        assert i > 0 ==> fs[1..][i - 1].key == k;
      }
    }
  }

  lemma {:induction false} InsertDenotes(f: Field, fs: seq<Field>)
    requires f.key !in DenoteFields(fs)
    ensures DenoteFields(Insert(f, fs)) == DenoteFields(fs)[f.key := Denote(f.value)]
  {
    if fs == [] || Less(f.key, fs[0].key) {
      assert ([f] + fs)[1..] == fs;
    } else {
      InsertDenotes(f, fs[1..]);
      assert ([fs[0]] + Insert(f, fs[1..]))[1..] == Insert(f, fs[1..]);
    }
  }

  lemma {:induction false} InsertOrdered(f: Field, fs: seq<Field>)
    requires Ordered(fs) && f.key !in DenoteFields(fs)
    ensures Ordered(Insert(f, fs))
  {
    if fs == [] {
    } else if Less(f.key, fs[0].key) {
      forall j | 0 < j < |fs| ensures Less(f.key, fs[j].key) {
        LessTransitive(f.key, fs[0].key, fs[j].key);
      }
    } else {
      LessTotal(f.key, fs[0].key);
      InsertOrdered(f, fs[1..]);
      var r := Insert(f, fs[1..]);
      InsertDenotes(f, fs[1..]);
      forall j | 0 <= j < |r| ensures Less(fs[0].key, r[j].key) {
        KeysDenoted(r, r[j].key);
        KeysDenoted(fs[1..], r[j].key);
      }
    }
  }

  /** Sorting changes neither the meaning nor well-formedness. */
  lemma {:induction false} SortKeepsMeaning(v: Json)
    requires WellFormed(v)
    ensures Denote(SortKeys(v)) == Denote(v)
    decreases v, 1
  {
    match v
    case Arr(items) => SortItemsKeepsMeaning(items);
    case Obj(fields) => SortFieldsKeepsMeaning(fields);
    case _ =>
  }

  lemma {:induction false} SortItemsKeepsMeaning(items: seq<Json>)
    requires WellFormedItems(items)
    ensures DenoteItems(SortItems(items)) == DenoteItems(items)
    decreases items, 0
  {
    if items != [] {
      SortKeepsMeaning(items[0]);
      SortItemsKeepsMeaning(items[1..]);
      assert SortItems(items)[1..] == SortItems(items[1..]);
    }
  }

  lemma {:induction false} SortFieldsKeepsMeaning(fields: seq<Field>)
    requires WellFormedFields(fields)
    ensures DenoteFields(SortFields(fields)) == DenoteFields(fields)
    decreases fields, 0
  {
    if fields != [] {
      SortKeepsMeaning(fields[0].value);
      SortFieldsKeepsMeaning(fields[1..]);
      InsertDenotes(Field(fields[0].key, SortKeys(fields[0].value)), SortFields(fields[1..]));
    }
  }

  // ------------------------------------------- a meaning has one sorted listing

  ghost predicate Sorted(v: Json)
    decreases v, 1
  {
    match v
    case Arr(items) => SortedItems(items)
    case Obj(fields) => Ordered(fields) && SortedFields(fields)
    case _ => true
  }

  ghost predicate SortedItems(items: seq<Json>)
    decreases items, 0
  {
    items != [] ==> Sorted(items[0]) && SortedItems(items[1..])
  }

  ghost predicate SortedFields(fields: seq<Field>)
    decreases fields, 0
  {
    fields != [] ==> Sorted(fields[0].value) && SortedFields(fields[1..])
  }

  lemma {:induction false} InsertSorted(f: Field, fs: seq<Field>)
    requires Sorted(f.value) && SortedFields(fs)
    ensures SortedFields(Insert(f, fs))
  {
    if fs == [] || Less(f.key, fs[0].key) {
      assert ([f] + fs)[1..] == fs;
    } else {
      InsertSorted(f, fs[1..]);
      assert ([fs[0]] + Insert(f, fs[1..]))[1..] == Insert(f, fs[1..]);
    }
  }

  lemma {:induction false} SortSorts(v: Json)
    requires WellFormed(v)
    ensures Sorted(SortKeys(v))
    decreases v, 1
  {
    match v
    case Arr(items) => SortItemsSorts(items);
    case Obj(fields) => SortFieldsSorts(fields);
    case _ =>
  }

  lemma {:induction false} SortItemsSorts(items: seq<Json>)
    requires WellFormedItems(items)
    ensures SortedItems(SortItems(items))
    decreases items, 0
  {
    if items != [] {
      SortSorts(items[0]);
      SortItemsSorts(items[1..]);
      assert SortItems(items)[1..] == SortItems(items[1..]);
    }
  }

  lemma {:induction false} SortFieldsSorts(fields: seq<Field>)
    requires WellFormedFields(fields)
    ensures Ordered(SortFields(fields)) && SortedFields(SortFields(fields))
    decreases fields, 0
  {
    if fields != [] {
      var f := Field(fields[0].key, SortKeys(fields[0].value));
      SortSorts(fields[0].value);
      SortFieldsSorts(fields[1..]);
      SortFieldsKeepsMeaning(fields[1..]);
      InsertOrdered(f, SortFields(fields[1..]));
      InsertSorted(f, SortFields(fields[1..]));
    }
  }

  /** In an ordered listing the first key is the least and appears nowhere else. */
  lemma LeastKey(fs: seq<Field>, k: string)
    requires fs != [] && Ordered(fs) && k in DenoteFields(fs)
    ensures k == fs[0].key || Less(fs[0].key, k)
    ensures fs[0].key !in DenoteFields(fs[1..])
  {
    KeysDenoted(fs, k);
    KeysDenoted(fs[1..], fs[0].key);
    forall j | 0 < j < |fs| ensures fs[j].key != fs[0].key {
      LessAsymmetric(fs[0].key, fs[j].key);
    }
  }

  lemma SameLeastKey(fs: seq<Field>, gs: seq<Field>)
    requires Ordered(fs) && Ordered(gs) && fs != [] && gs != []
    requires DenoteFields(fs) == DenoteFields(gs)
    ensures fs[0].key == gs[0].key
  {
    KeysDenoted(fs, fs[0].key);
    KeysDenoted(gs, gs[0].key);
    LeastKey(fs, gs[0].key);
    LeastKey(gs, fs[0].key);
    if fs[0].key != gs[0].key {
      LessAsymmetric(fs[0].key, gs[0].key);
    }
  }

  lemma HeadAndTail(fs: seq<Field>)
    requires fs != [] && fs[0].key !in DenoteFields(fs[1..])
    ensures fs[0].key in DenoteFields(fs) && DenoteFields(fs)[fs[0].key] == Denote(fs[0].value)
    ensures DenoteFields(fs[1..]) == DenoteFields(fs) - {fs[0].key}
  {
  }

  lemma SameFirstKey(fs: seq<Field>, gs: seq<Field>)
    requires Ordered(fs) && Ordered(gs) && fs != [] && gs != []
    requires DenoteFields(fs) == DenoteFields(gs)
    ensures fs[0].key == gs[0].key
    ensures DenoteFields(fs[1..]) == DenoteFields(gs[1..])
    ensures Denote(fs[0].value) == Denote(gs[0].value)
  {
    SameLeastKey(fs, gs);
    KeysDenoted(fs, fs[0].key);
    LeastKey(fs, fs[0].key);
    LeastKey(gs, gs[0].key);
    HeadAndTail(fs);
    HeadAndTail(gs);
  }

  lemma EmptyDenotes(fs: seq<Field>)
    ensures fs == [] <==> DenoteFields(fs) == map[]
  {
    assert fs != [] ==> fs[0].key in DenoteFields(fs);
  }

  lemma {:induction false} SortedUnique(v: Json, w: Json)
    requires Sorted(v) && Sorted(w) && Denote(v) == Denote(w)
    ensures v == w
    decreases v, 1
  {
    match v
    case Arr(items) => SortedItemsUnique(items, w.items);
    case Obj(fields) => SortedFieldsUnique(fields, w.fields);
    case _ =>
  }

  lemma {:induction false} SortedItemsUnique(xs: seq<Json>, ys: seq<Json>)
    requires SortedItems(xs) && SortedItems(ys) && DenoteItems(xs) == DenoteItems(ys)
    ensures xs == ys
    decreases xs, 0
  {
    if xs != [] && ys != [] {
      assert DenoteItems(xs)[0] == DenoteItems(ys)[0];
      assert DenoteItems(xs)[1..] == DenoteItems(ys)[1..];
      SortedUnique(xs[0], ys[0]);
      SortedItemsUnique(xs[1..], ys[1..]);
      assert xs == [xs[0]] + xs[1..] && ys == [ys[0]] + ys[1..];
    }
  }

  lemma {:induction false} SortedFieldsUnique(fs: seq<Field>, gs: seq<Field>)
    requires Ordered(fs) && Ordered(gs) && SortedFields(fs) && SortedFields(gs)
    requires DenoteFields(fs) == DenoteFields(gs)
    ensures fs == gs
    decreases fs, 0
  {
    EmptyDenotes(fs);
    EmptyDenotes(gs);
    if fs != [] && gs != [] {
      SameFirstKey(fs, gs);
      SortedUnique(fs[0].value, gs[0].value);
      SortedFieldsUnique(fs[1..], gs[1..]);
      assert fs == [fs[0]] + fs[1..] && gs == [gs[0]] + gs[1..];
    }
  }

  /** Two payloads have one canonical text exactly when they are one JSON value, dictionaries taken as mappings. */
  lemma CanonicalTextIsMeaning(v: Json, w: Json)
    requires WellFormed(v) && WellFormed(w)
    ensures CanonicalText(v) == CanonicalText(w) <==> Denote(v) == Denote(w)
  {
    SortKeepsMeaning(v);
    SortKeepsMeaning(w);
    SortSorts(v);
    SortSorts(w);
    if CanonicalText(v) == CanonicalText(w) {
      PrintInjective(SortKeys(v), SortKeys(w));
    } else if Denote(v) == Denote(w) {
      SortedUnique(SortKeys(v), SortKeys(w));
    }
  }
}
