/** serde_json values as the program builds and reads them. */
module Json {
  import opened Basics
  import opened Text

  /** Numbers are u64 (`UInt`) or negative i64 (`Neg`); objects are BTreeMaps (`Fields`). */
  datatype Json =
    | Null
    | Bool(flag: bool)
    | UInt(n: nat)
    | Neg(i: int)
    | Str(text: Bytes)
    | Arr(items: seq<Json>)
    | Obj(fields: Fields)

  /** A BTreeMap<String, Value>: entries in ascending key order. */
  datatype Fields = Empty | Entry(key: Bytes, value: Json, rest: Fields)

  function Lookup(fs: Fields, k: Bytes): Option<Json> {
    match fs
    case Empty => None
    case Entry(key, value, rest) => if key == k then Some(value) else Lookup(rest, k)
  }

  /** BTreeMap::insert: replaces the value of a present key. */
  function Insert(fs: Fields, k: Bytes, v: Json): Fields {
    match fs
    case Empty => Entry(k, v, Empty)
    case Entry(key, value, rest) =>
      if k == key then Entry(k, v, rest)
      else if Less(k, key) then Entry(k, v, fs)
      else Entry(key, value, Insert(rest, k, v))
  }

  function Count(fs: Fields): nat {
    if fs.Empty? then 0 else 1 + Count(fs.rest)
  }

  function Append(fs: Fields, tail: Fields): Fields {
    match fs
    case Empty => tail
    case Entry(key, value, rest) => Entry(key, value, Append(rest, tail))
  }

  /** Strictly ascending keys. */
  predicate Sorted(fs: Fields) {
    fs.Entry? && fs.rest.Entry? ==> Less(fs.key, fs.rest.key) && Sorted(fs.rest)
  }

  lemma {:induction false} LookupInsert(fs: Fields, k: Bytes, v: Json, q: Bytes)
    ensures Lookup(Insert(fs, k, v), q) == if q == k then Some(v) else Lookup(fs, q)
  {
    if fs.Entry? {
      LookupInsert(fs.rest, k, v, q);
    }
  }

  lemma {:induction false} InsertSorted(fs: Fields, k: Bytes, v: Json)
    requires Sorted(fs)
    ensures Sorted(Insert(fs, k, v))
  {
    if fs.Entry? {
      InsertSorted(fs.rest, k, v);
      LessTotal(k, fs.key);
    }
  }

  predicate KeysBelow(fs: Fields, k: Bytes) {
    fs.Entry? ==> Less(fs.key, k) && KeysBelow(fs.rest, k)
  }

  lemma {:induction false} InsertLast(fs: Fields, k: Bytes, v: Json)
    requires KeysBelow(fs, k)
    ensures Insert(fs, k, v) == Append(fs, Entry(k, v, Empty))
  {
    if fs.Entry? {
      InsertLast(fs.rest, k, v);
      LessTotal(fs.key, k);
    }
  }

  lemma {:induction false} KeysBelowAppend(fs: Fields, k: Bytes, v: Json, q: Bytes)
    requires KeysBelow(fs, k) && Less(k, q)
    ensures KeysBelow(Append(fs, Entry(k, v, Empty)), q)
  {
    if fs.Entry? {
      LessTransitive(fs.key, k, q);
      KeysBelowAppend(fs.rest, k, v, q);
    }
  }

  lemma {:induction false} AppendAssociative(a: Fields, b: Fields, c: Fields)
    ensures Append(Append(a, b), c) == Append(a, Append(b, c))
  {
    if a.Entry? {
      AppendAssociative(a.rest, b, c);
    }
  }

  lemma {:induction false} AppendEmpty(a: Fields)
    ensures Append(a, Empty) == a
  {
    if a.Entry? {
      AppendEmpty(a.rest);
    }
  }

  // --- What serde_json guarantees of every value: the representable ones ---

  /** Rust slices and strings hold at most isize::MAX bytes. */
  predicate ValidText(b: Bytes) {
    ValidUtf8(b) && |b| < TWO_63
  }

  predicate Valid(v: Json) {
    match v
    case Null => true
    case Bool(_) => true
    case UInt(n) => n < TWO_64
    case Neg(i) => -TWO_63 <= i < 0
    case Str(t) => ValidText(t)
    case Arr(items) => |items| < TWO_63 && AllValid(items)
    case Obj(fields) => Count(fields) < TWO_63 && Sorted(fields) && FieldsValid(fields)
  }

  predicate AllValid(items: seq<Json>) {
    items == [] || (Valid(items[0]) && AllValid(items[1..]))
  }

  predicate FieldsValid(fs: Fields) {
    fs.Entry? ==> ValidText(fs.key) && Valid(fs.value) && FieldsValid(fs.rest)
  }

  // --- Accessors: `get(..).and_then(as_str)` and friends ---

  /** `Value::get` by key: only an object has members. */
  function Get(v: Json, name: string): Option<Json> {
    if v.Obj? then Lookup(v.fields, Ascii(name)) else None
  }

  function AsStr(v: Option<Json>): Option<Bytes> {
    match v
    case Some(Str(t)) => Some(t)
    case _ => None
  }

  function AsU64(v: Option<Json>): Option<nat> {
    match v
    case Some(UInt(n)) => Some(n)
    case _ => None
  }

  function StrField(v: Json, name: string): Option<Bytes> {
    AsStr(Get(v, name))
  }

  function U64Field(v: Json, name: string): Option<nat> {
    AsU64(Get(v, name))
  }

  function StrOrEmpty(v: Json, name: string): Bytes {
    match StrField(v, name)
    case Some(t) => t
    case None => []
  }

  /** What run_fput answers. */
  function QueuedAnswer(flag: bool): Json {
    Obj(Entry(Ascii("queued"), Bool(flag), Empty))
  }
}
