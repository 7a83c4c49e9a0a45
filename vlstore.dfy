/**
 * The content-addressed store for variable-length values (`VLWrite`,
 * `VLDataset`, `AppendVLKey`; hdf5_back.cc, lines 466-572), as values.
 *
 * Per category (strings, blobs) the file holds a key dataset, a list of the
 * digests stored so far, and a value dataset. The value dataset is modelled
 * as an append-only list parallel to the key list, looked up through the
 * position of a digest in the key list. In memory, `vlkeys_` holds the set
 * of known digests of each category and `vldatasets_` the datasets opened.
 */
module VLStore {
  import opened Bytes
  import opened Schema

  /** The two categories that `VLDataset` knows. */
  datatype VLKind = StringKind | BlobKind

  function KindName(k: VLKind): string {
    match k
    case StringKind => "String"
    case BlobKind => "Blob"
  }

  /** The dataset name `VLDataset` builds: "StringKeys", "BlobVals", ... */
  function DatasetName(k: VLKind, forkeys: bool): string {
    KindName(k) + (if forkeys then "Keys" else "Vals")
  }

  /** One of the four value-store datasets, identified as `vldatasets_` identifies it by name. */
  datatype Dataset = Dataset(kind: VLKind, forkeys: bool)

  /** Distinct datasets have distinct names, so keying open datasets by `Dataset` is keying them by name. */
  lemma DatasetNamesDistinct(a: Dataset, b: Dataset)
    requires a != b
    ensures DatasetName(a.kind, a.forkeys) != DatasetName(b.kind, b.forkeys)
  {
    var na, nb := DatasetName(a.kind, a.forkeys), DatasetName(b.kind, b.forkeys);
    if a.kind != b.kind {
      assert na[0] != nb[0];
    } else {
      var i := |KindName(a.kind)|;
      assert na[i] != nb[i];
    }
  }

  datatype VLState = VLState(
    keys: map<VLKind, seq<Digest>>,   // key datasets present in the file
    vals: map<VLKind, seq<Str>>,      // value datasets present in the file
    known: map<VLKind, set<Digest>>,  // vlkeys_
    openDs: set<Dataset>)             // the datasets held in vldatasets_

  function KeysOf(st: VLState, k: VLKind): seq<Digest> {
    if k in st.keys then st.keys[k] else []
  }

  function ValsOf(st: VLState, k: VLKind): seq<Str> {
    if k in st.vals then st.vals[k] else []
  }

  /** `vlkeys_[k]`; `operator[]` yields the empty set for a missing category. */
  function Known(st: VLState, k: VLKind): set<Digest> {
    if k in st.known then st.known[k] else {}
  }

  predicate NoDup<T(==)>(s: seq<T>) {
    forall i, j :: 0 <= i < j < |s| ==> s[i] != s[j]
  }

  function Elems<T>(s: seq<T>): set<T> {
    set i | 0 <= i < |s| :: s[i]
  }

  /**
   * The store invariant of one category: each digest occurs once in the key
   * list, the value at the same position is content with that digest, and
   * once the key dataset is open the in-memory set is exactly the key list.
   */
  ghost predicate KindValid(st: VLState, k: VLKind, hasher: Str -> Digest) {
    && |KeysOf(st, k)| == |ValsOf(st, k)|
    && NoDup(KeysOf(st, k))
    && (forall i :: 0 <= i < |KeysOf(st, k)| ==> KeysOf(st, k)[i] == hasher(ValsOf(st, k)[i]))
    && (Dataset(k, true) in st.openDs ==> k in st.keys && Known(st, k) == Elems(KeysOf(st, k)))
    && (Dataset(k, true) !in st.openDs ==> Known(st, k) == {})
    && (Dataset(k, false) in st.openDs ==> k in st.vals)
  }

  ghost predicate Valid(st: VLState, hasher: Str -> Digest) {
    KindValid(st, StringKind, hasher) && KindValid(st, BlobKind, hasher)
  }

  /** The digests added to `vlkeys_` when an existing key dataset is opened. */
  function LoadedKeys(persisted: seq<Digest>): (r: set<Digest>)
    ensures forall i :: 0 <= i < |persisted| ==> persisted[i] in r
    ensures forall d :: d in r ==> d in persisted
  {
    Elems(persisted)
  }

  /**
   * `VLDataset(k, forkeys)`: a dataset already open is left alone; one in the
   * file is opened, and opening a key dataset adds what `load` reads from its
   * digests to the in-memory set; a missing one is created empty.
   */
  function OpenWith(st: VLState, k: VLKind, forkeys: bool, load: seq<Digest> -> set<Digest>): VLState {
    var ds := Dataset(k, forkeys);
    if ds in st.openDs then st
    else if forkeys then
      if k in st.keys then
        st.(known := st.known[k := Known(st, k) + load(st.keys[k])], openDs := st.openDs + {ds})
      else
        st.(keys := st.keys[k := []], openDs := st.openDs + {ds})
    else if k in st.vals then
      st.(openDs := st.openDs + {ds})
    else
      st.(vals := st.vals[k := []], openDs := st.openDs + {ds})
  }

  /** `VLWrite`'s dataset opening, loading the persisted digests themselves. */
  function Open(st: VLState, k: VLKind, forkeys: bool): VLState {
    OpenWith(st, k, forkeys, LoadedKeys)
  }

  /**
   * `VLWrite`: hash the content, open both datasets of its category, and store
   * it only if its digest is unknown (`AppendVLKey` then `InsertVLVal`).
   */
  function PutWith(st: VLState, k: VLKind, x: Str, hasher: Str -> Digest, load: seq<Digest> -> set<Digest>): VLState {
    var st1 := OpenWith(OpenWith(st, k, true, load), k, false, load);
    var key := hasher(x);
    if key in Known(st1, k) then st1
    else
      st1.(keys := st1.keys[k := KeysOf(st1, k) + [key]],
           vals := st1.vals[k := ValsOf(st1, k) + [x]],
           known := st1.known[k := Known(st1, k) + {key}])
  }

  function Put(st: VLState, k: VLKind, x: Str, hasher: Str -> Digest): VLState {
    PutWith(st, k, x, hasher, LoadedKeys)
  }

  /** A value bound for the store: its category and its content. */
  datatype Item = Item(kind: VLKind, content: Str)

  /** Storing a sequence of values one after the other. */
  function PutAll(st: VLState, items: seq<Item>, hasher: Str -> Digest): VLState {
    if items == [] then st
    else
      var last := items[|items| - 1];
      Put(PutAll(st, items[..|items| - 1], hasher), last.kind, last.content, hasher)
  }

  lemma ElemsMembership<T>(s: seq<T>, x: T)
    ensures x in Elems(s) <==> x in s
  {
    if x in s {
      var i :| 0 <= i < |s| && s[i] == x;
    }
  }

  lemma ElemsAppend<T>(s: seq<T>, x: T)
    ensures Elems(s + [x]) == Elems(s) + {x}
  {
    forall y | y in Elems(s + [x]) ensures y in Elems(s) + {x} {
      var i :| 0 <= i < |s + [x]| && (s + [x])[i] == y;
      if i < |s| {
        assert s[i] == y;
      }
    }
    forall y | y in Elems(s) ensures y in Elems(s + [x]) {
      var i :| 0 <= i < |s| && s[i] == y;
      assert (s + [x])[i] == y;
    }
    assert (s + [x])[|s|] == x;
  }

  /** The invariant of a category carries over to a state with the same lists and a consistent set. */
  lemma KindValidTransfer(st: VLState, st': VLState, j: VLKind, hasher: Str -> Digest)
    requires KindValid(st, j, hasher)
    requires KeysOf(st', j) == KeysOf(st, j) && ValsOf(st', j) == ValsOf(st, j)
    requires Dataset(j, true) in st'.openDs ==> j in st'.keys && Known(st', j) == Elems(KeysOf(st', j))
    requires Dataset(j, true) !in st'.openDs ==> Known(st', j) == {}
    requires Dataset(j, false) in st'.openDs ==> j in st'.vals
    ensures KindValid(st', j, hasher)
  {
  }

  /** Opening a key dataset that was not open loads its digests into the set of that category only. */
  lemma OpenKeysKindValid(st: VLState, k: VLKind, j: VLKind, hasher: Str -> Digest)
    requires KindValid(st, j, hasher) && Dataset(k, true) !in st.openDs
    ensures KindValid(Open(st, k, true), j, hasher)
    ensures KeysOf(Open(st, k, true), j) == KeysOf(st, j) && ValsOf(Open(st, k, true), j) == ValsOf(st, j)
  {
    var st' := Open(st, k, true);
    if j != k {
      assert Known(st', j) == Known(st, j);
    } else if k !in st.keys {
      assert KeysOf(st, k) == [];
    }
    KindValidTransfer(st, st', j, hasher);
  }

  /** Opening a dataset keeps the invariant of each category and leaves the file's lists alone. */
  lemma OpenKindValid(st: VLState, k: VLKind, forkeys: bool, j: VLKind, hasher: Str -> Digest)
    requires KindValid(st, j, hasher)
    ensures KindValid(Open(st, k, forkeys), j, hasher)
    ensures KeysOf(Open(st, k, forkeys), j) == KeysOf(st, j) && ValsOf(Open(st, k, forkeys), j) == ValsOf(st, j)
  {
    if Dataset(k, forkeys) !in st.openDs {
      if forkeys {
        OpenKeysKindValid(st, k, j, hasher);
      } else {
        KindValidTransfer(st, Open(st, k, forkeys), j, hasher);
      }
    }
  }

  /** Opening a dataset keeps the store invariant. */
  lemma OpenValid(st: VLState, k: VLKind, forkeys: bool, hasher: Str -> Digest)
    requires Valid(st, hasher)
    ensures Valid(Open(st, k, forkeys), hasher)
    ensures forall j :: KeysOf(Open(st, k, forkeys), j) == KeysOf(st, j) && ValsOf(Open(st, k, forkeys), j) == ValsOf(st, j)
  {
    OpenKindValid(st, k, forkeys, StringKind, hasher);
    OpenKindValid(st, k, forkeys, BlobKind, hasher);
  }

  /** `VLWrite` after opening: both datasets of the category are open and the set is the key list. */
  lemma OpenedForPut(st: VLState, k: VLKind, hasher: Str -> Digest)
    requires Valid(st, hasher)
    ensures var st1 := Open(Open(st, k, true), k, false);
      && Valid(st1, hasher)
      && (forall j :: KeysOf(st1, j) == KeysOf(st, j) && ValsOf(st1, j) == ValsOf(st, j))
      && (forall j :: j != k ==> Known(st1, j) == Known(st, j))
      && Dataset(k, true) in st1.openDs && Dataset(k, false) in st1.openDs
      && Known(st1, k) == Elems(KeysOf(st, k))
  {
    var st0 := Open(st, k, true);
    OpenValid(st, k, true, hasher);
    OpenValid(st0, k, false, hasher);
  }

  /** Appending a digest that is not yet stored keeps the invariant. */
  lemma AppendKindValid(st1: VLState, k: VLKind, x: Str, j: VLKind, hasher: Str -> Digest)
    requires KindValid(st1, j, hasher)
    requires Dataset(k, true) in st1.openDs && Dataset(k, false) in st1.openDs
    requires hasher(x) !in Known(st1, k)
    ensures var st' := st1.(keys := st1.keys[k := KeysOf(st1, k) + [hasher(x)]],
                           vals := st1.vals[k := ValsOf(st1, k) + [x]],
                           known := st1.known[k := Known(st1, k) + {hasher(x)}]);
      KindValid(st', j, hasher)
  {
    if j == k {
      var ks := KeysOf(st1, k);
      ElemsMembership(ks, hasher(x));
      ElemsAppend(ks, hasher(x));
    }
  }

  /**
   * The effect of `VLWrite` on the file: a digest already stored leaves both
   * lists unchanged; a new one is appended to the key list at position
   * `origlen` together with its content; the other category is untouched.
   * Afterwards the in-memory set is the key list.
   */
  lemma PutEffect(st: VLState, k: VLKind, x: Str, hasher: Str -> Digest)
    requires Valid(st, hasher)
    ensures Valid(Put(st, k, x, hasher), hasher)
    ensures hasher(x) in KeysOf(st, k) ==>
      KeysOf(Put(st, k, x, hasher), k) == KeysOf(st, k) && ValsOf(Put(st, k, x, hasher), k) == ValsOf(st, k)
    ensures hasher(x) !in KeysOf(st, k) ==>
      KeysOf(Put(st, k, x, hasher), k) == KeysOf(st, k) + [hasher(x)] && ValsOf(Put(st, k, x, hasher), k) == ValsOf(st, k) + [x]
    ensures Known(Put(st, k, x, hasher), k) == Elems(KeysOf(Put(st, k, x, hasher), k))
    ensures Dataset(k, true) in Put(st, k, x, hasher).openDs && Dataset(k, false) in Put(st, k, x, hasher).openDs
    ensures forall j :: j != k ==> KeysOf(Put(st, k, x, hasher), j) == KeysOf(st, j) && ValsOf(Put(st, k, x, hasher), j) == ValsOf(st, j)
  {
    var st1 := Open(Open(st, k, true), k, false);
    OpenedForPut(st, k, hasher);
    ElemsMembership(KeysOf(st, k), hasher(x));
    if hasher(x) !in Known(st1, k) {
      AppendKindValid(st1, k, x, StringKind, hasher);
      AppendKindValid(st1, k, x, BlobKind, hasher);
      ElemsAppend(KeysOf(st, k), hasher(x));
    }
  }

  /** Storing the same content twice is the same as storing it once. */
  lemma PutIdempotent(st: VLState, k: VLKind, x: Str, hasher: Str -> Digest)
    requires Valid(st, hasher)
    ensures Put(Put(st, k, x, hasher), k, x, hasher) == Put(st, k, x, hasher)
  {
    var st' := Put(st, k, x, hasher);
    PutEffect(st, k, x, hasher);
    if hasher(x) !in KeysOf(st, k) {
      assert KeysOf(st', k)[|KeysOf(st, k)|] == hasher(x);
    }
    ElemsMembership(KeysOf(st', k), hasher(x));
  }

  /** The position of a digest in a key list: the lookup that replaces VLRead's coordinates. */
  function IndexOf(keys: seq<Digest>, d: seq<byte>): (r: Option<nat>)
    ensures r.Some? ==> r.value < |keys| && keys[r.value] == d
    ensures r.None? ==> d !in keys
  {
    if keys == [] then None
    else if keys[0] == d then Some(0)
    else match IndexOf(keys[1..], d)
      case None => None
      case Some(i) => Some(i + 1)
  }

  /** The content stored under a digest, if any. */
  function Lookup(st: VLState, k: VLKind, d: seq<byte>): Option<Str> {
    match IndexOf(KeysOf(st, k), d)
    case None => None
    case Some(i) => if i < |ValsOf(st, k)| then Some(ValsOf(st, k)[i]) else None
  }

  /** A lookup finds exactly the stored digests, and yields content with that digest. */
  lemma LookupSound(st: VLState, k: VLKind, d: seq<byte>, hasher: Str -> Digest)
    requires Valid(st, hasher)
    ensures Lookup(st, k, d).Some? <==> d in KeysOf(st, k)
    ensures Lookup(st, k, d).Some? ==> hasher(Lookup(st, k, d).value) == d
  {
  }

  /** Every digest of an earlier key list keeps its position when the list grows by appending. */
  lemma {:induction false} IndexOfStable(keys: seq<Digest>, more: seq<Digest>, d: seq<byte>)
    requires d in keys
    ensures IndexOf(keys + more, d) == IndexOf(keys, d)
  {
    if keys[0] != d {
      assert (keys + more)[1..] == keys[1..] + more;
      IndexOfStable(keys[1..], more, d);
    }
  }

  /** The key and value lists of `st'` extend those of `st`: the store is append-only. */
  predicate Extends(st: VLState, st': VLState) {
    forall k :: KeysOf(st, k) <= KeysOf(st', k) && ValsOf(st, k) <= ValsOf(st', k)
  }

  lemma PutExtends(st: VLState, k: VLKind, x: Str, hasher: Str -> Digest)
    requires Valid(st, hasher)
    ensures Valid(Put(st, k, x, hasher), hasher) && Extends(st, Put(st, k, x, hasher))
    ensures hasher(x) in KeysOf(Put(st, k, x, hasher), k)
  {
    var st' := Put(st, k, x, hasher);
    PutEffect(st, k, x, hasher);
    forall j ensures KeysOf(st, j) <= KeysOf(st', j) && ValsOf(st, j) <= ValsOf(st', j) {
      if j == k && hasher(x) !in KeysOf(st, k) {
        SnocExtends(KeysOf(st, k), hasher(x));
        SnocExtends(ValsOf(st, k), x);
      }
    }
    if hasher(x) !in KeysOf(st, k) {
      SnocExtends(KeysOf(st, k), hasher(x));
    }
  }

  lemma SnocExtends<T>(s: seq<T>, y: T)
    ensures s <= s + [y] && y in s + [y]
  {
    assert (s + [y])[|s|] == y;
  }

  /** The contents of the items of one category. */
  function Contents(items: seq<Item>, k: VLKind): set<Str> {
    set i | 0 <= i < |items| && items[i].kind == k :: items[i].content
  }

  /**
   * Storing a sequence of values keeps the invariant, only ever appends to the
   * key and value lists, and leaves every value of the sequence stored.
   */
  lemma {:induction false} PutAllEffect(st: VLState, items: seq<Item>, hasher: Str -> Digest)
    requires Valid(st, hasher)
    ensures Valid(PutAll(st, items, hasher), hasher)
    ensures Extends(st, PutAll(st, items, hasher))
    ensures forall i :: 0 <= i < |items| ==> hasher(items[i].content) in KeysOf(PutAll(st, items, hasher), items[i].kind)
    decreases |items|
  {
    if items != [] {
      var init := items[..|items| - 1];
      var last := items[|items| - 1];
      PutAllEffect(st, init, hasher);
      var mid := PutAll(st, init, hasher);
      PutExtends(mid, last.kind, last.content, hasher);
      var st' := PutAll(st, items, hasher);
      assert st' == Put(mid, last.kind, last.content, hasher);
      forall i | 0 <= i < |items| ensures hasher(items[i].content) in KeysOf(st', items[i].kind) {
        if i < |init| {
          assert items[i] == init[i];
          assert hasher(items[i].content) in KeysOf(mid, items[i].kind);
          assert KeysOf(mid, items[i].kind) <= KeysOf(st', items[i].kind);
        }
      }
    }
  }

  /** Storing two sequences one after the other is storing their concatenation. */
  lemma {:induction false} PutAllAppend(st: VLState, a: seq<Item>, b: seq<Item>, hasher: Str -> Digest)
    ensures PutAll(st, a + b, hasher) == PutAll(PutAll(st, a, hasher), b, hasher)
    decreases |b|
  {
    if b == [] {
      assert a + b == a;
    } else {
      var b' := b[..|b| - 1];
      PutAllAppend(st, a, b', hasher);
      assert (a + b)[..|a + b| - 1] == a + b';
    }
  }

  /** One store adds at most its own content to the values of any category. */
  lemma PutVals(st: VLState, k: VLKind, x: Str, j: VLKind, hasher: Str -> Digest)
    requires Valid(st, hasher)
    ensures Valid(Put(st, k, x, hasher), hasher)
    ensures Elems(ValsOf(Put(st, k, x, hasher), j)) <= Elems(ValsOf(st, j)) + (if j == k then {x} else {})
  {
    PutEffect(st, k, x, hasher);
    if j == k && hasher(x) !in KeysOf(st, k) {
      ElemsAppend(ValsOf(st, k), x);
    }
  }

  /** Storing a sequence of values adds no content but theirs. */
  lemma {:induction false} PutAllContents(st: VLState, items: seq<Item>, k: VLKind, hasher: Str -> Digest)
    requires Valid(st, hasher)
    ensures Valid(PutAll(st, items, hasher), hasher)
    ensures Elems(ValsOf(PutAll(st, items, hasher), k)) <= Elems(ValsOf(st, k)) + Contents(items, k)
    decreases |items|
  {
    if items != [] {
      var init := items[..|items| - 1];
      var last := items[|items| - 1];
      PutAllContents(st, init, k, hasher);
      var mid := PutAll(st, init, hasher);
      PutVals(mid, last.kind, last.content, k, hasher);
      ContentsSnoc(items, k);
    }
  }

  /** The contents of a nonempty item sequence: those of all but the last, and the last's own. */
  lemma ContentsSnoc(items: seq<Item>, k: VLKind)
    requires items != []
    ensures Contents(items[..|items| - 1], k) + (if items[|items| - 1].kind == k then {items[|items| - 1].content} else {})
      <= Contents(items, k)
  {
    var init := items[..|items| - 1];
    forall v | v in Contents(init, k) ensures v in Contents(items, k) {
      var i :| 0 <= i < |init| && init[i].kind == k && init[i].content == v;
      assert items[i] == init[i];
    }
  }

  /** Content no other stored or queued content collides with. */
  ghost predicate CollisionFree(hasher: Str -> Digest, pool: set<Str>) {
    forall a, b :: a in pool && b in pool && hasher(a) == hasher(b) ==> a == b
  }

  /**
   * After storing a sequence of values, looking up the digest of any of them
   * yields that very content, provided the digest function separates the
   * contents involved.
   */
  lemma PutAllRetrievable(st: VLState, items: seq<Item>, i: nat, hasher: Str -> Digest)
    requires Valid(st, hasher) && i < |items|
    requires CollisionFree(hasher, Elems(ValsOf(st, items[i].kind)) + Contents(items, items[i].kind))
    ensures Lookup(PutAll(st, items, hasher), items[i].kind, hasher(items[i].content)) == Some(items[i].content)
  {
    var st', k, x := PutAll(st, items, hasher), items[i].kind, items[i].content;
    PutAllEffect(st, items, hasher);
    PutAllContents(st, items, k, hasher);
    LookupSound(st', k, hasher(x), hasher);
    var v := Lookup(st', k, hasher(x)).value;
    var j := IndexOf(KeysOf(st', k), hasher(x)).value;
    assert v == ValsOf(st', k)[j];
    assert v in Elems(ValsOf(st', k));
    assert x in Contents(items, k);
  }

  /** Digests stored once keep resolving to the same content as the store grows. */
  lemma LookupStable(st: VLState, st': VLState, k: VLKind, d: seq<byte>)
    requires |KeysOf(st, k)| == |ValsOf(st, k)|
    requires Extends(st, st')
    requires d in KeysOf(st, k)
    ensures Lookup(st', k, d) == Lookup(st, k, d)
  {
    var ks, ks' := KeysOf(st, k), KeysOf(st', k);
    assert ks' == ks + ks'[|ks|..];
    IndexOfStable(ks, ks'[|ks|..], d);
  }

  /* ---- Reading ---- */

  /**
   * What reading may change: `VLRead` opens the value dataset of a category,
   * so the key lists, `vlkeys_` and the contents seen through the value
   * lists stay as they were, and the only datasets opened are value datasets
   * present in the file.
   */
  predicate ReadOnly(st: VLState, st': VLState) {
    && st'.keys == st.keys && st'.known == st.known
    && ValsOf(st', StringKind) == ValsOf(st, StringKind) && ValsOf(st', BlobKind) == ValsOf(st, BlobKind)
    && st.vals.Keys <= st'.vals.Keys && st.openDs <= st'.openDs
    && forall d :: d in st'.openDs && d !in st.openDs ==> !d.forkeys && d.kind in st'.vals
  }

  /** Opening a value dataset for reading is such a change. */
  lemma OpenForRead(st: VLState, k: VLKind)
    ensures ReadOnly(st, Open(st, k, false))
  {
  }

  /** Such a change keeps the store invariant. */
  lemma ReadOnlyValid(st: VLState, st': VLState, hasher: Str -> Digest)
    requires Valid(st, hasher) && ReadOnly(st, st')
    ensures Valid(st', hasher)
  {
    assert KeysOf(st', StringKind) == KeysOf(st, StringKind) && KeysOf(st', BlobKind) == KeysOf(st, BlobKind);
    assert Known(st', StringKind) == Known(st, StringKind) && Known(st', BlobKind) == Known(st, BlobKind);
  }

  /** Such a change leaves every lookup as it was. */
  lemma ReadOnlyLookup(st: VLState, st': VLState, k: VLKind, d: seq<byte>)
    requires ReadOnly(st, st')
    ensures Lookup(st', k, d) == Lookup(st, k, d)
  {
    assert KeysOf(st', k) == KeysOf(st, k) && ValsOf(st', k) == ValsOf(st, k);
  }

  /* ---- The reload of persisted keys as the source writes it ---- */

  /** The value of a default-constructed `Digest` (taken to be all zero bytes). */
  const ZeroDigest: Digest := [0, 0, 0, 0, 0, 0, 0, 0, 0, 0, 0, 0, 0, 0, 0, 0, 0, 0, 0, 0]

  /**
   * The set `VLDataset` loads as written: the `memcpy` at line 514 copies the
   * fresh digest INTO the read buffer, so each inserted digest is the default
   * one and none of the persisted digests reaches `vlkeys_`.
   */
  function LoadedKeysAsWritten(persisted: seq<Digest>): set<Digest> {
    if persisted == [] then {} else {ZeroDigest}
  }

  /** `VLWrite` with the as-written reload. */
  function PutAsWritten(st: VLState, k: VLKind, x: Str, hasher: Str -> Digest): VLState {
    PutWith(st, k, x, hasher, LoadedKeysAsWritten)
  }

  /**
   * With the as-written reload, writing a string that a previous run already
   * stored appends its digest a second time: the key list of a reopened file
   * loses the "each digest once" invariant. The corrected `Put` does not.
   */
  lemma ReloadAsWrittenDuplicatesKey(x: Str, hasher: Str -> Digest)
    requires hasher(x) != ZeroDigest
    ensures var st := VLState(map[StringKind := [hasher(x)]], map[StringKind := [x]], map[], {});
      && Valid(st, hasher)
      && KeysOf(PutAsWritten(st, StringKind, x, hasher), StringKind) == [hasher(x), hasher(x)]
      && !NoDup(KeysOf(PutAsWritten(st, StringKind, x, hasher), StringKind))
      && KeysOf(Put(st, StringKind, x, hasher), StringKind) == [hasher(x)]
  {
    var st := VLState(map[StringKind := [hasher(x)]], map[StringKind := [x]], map[], {});
    assert Valid(st, hasher);
    PutEffect(st, StringKind, x, hasher);
    var st0 := OpenWith(st, StringKind, true, LoadedKeysAsWritten);
    assert Known(st0, StringKind) == {ZeroDigest};
    var st1 := OpenWith(st0, StringKind, false, LoadedKeysAsWritten);
    assert Known(st1, StringKind) == {ZeroDigest};
    assert KeysOf(st1, StringKind) == [hasher(x)];
    var bad := PutAsWritten(st, StringKind, x, hasher);
    assert KeysOf(bad, StringKind)[0] == KeysOf(bad, StringKind)[1];
  }
}
