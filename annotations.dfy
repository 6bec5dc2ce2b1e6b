/** The data model shared by the GFF/GTF reader and writers: sentinel-aware ids and
    positions, one annotation entry, the tables of the fragment store, the decoded
    GFF record, and the interning and key/value helpers the reader and writers call. */
module Annotations {

  datatype Option<T> = None | Some(value: T)

  /** An id into one of the store's tables, or the INVALID_ID sentinel. The sentinel
      is the largest value of the id type: it is never a valid index and compares
      greater than every real id. */
  datatype Link = Id(id: nat) | NoId

  /** `l < n` as the source compares an id with a table length. */
  predicate InRange(l: Link, n: nat) {
    l.Id? && l.id < n
  }

  /** `l <= k` as the source compares a type id with a predefined type. */
  predicate AtMost(l: Link, k: nat) {
    l.Id? && l.id <= k
  }

  /** A contig position, or the INVALID_POS sentinel, the largest position value. */
  datatype Pos = At(p: int) | NoPos

  /** `a < b` on positions, the sentinel lying above every real position. */
  predicate Before(a: Pos, b: Pos) {
    a.At? && (b.NoPos? || a.p < b.p)
  }

  /** The predefined annotation types, in the order of the store's type table. */
  const AnnoRoot: nat := 0
  const AnnoDeleted: nat := 1
  const AnnoGene: nat := 2
  const AnnoMrna: nat := 3

  /** One entry of the annotation store. Orientation is encoded by the order of the
      two positions: `beginPos > endPos` means the reverse strand. `values` is
      indexed by the id of an attribute key; an empty string is an absent value. */
  datatype Annotation = Annotation(
    contigId: Link,
    typeId: Link,
    parentId: Link,
    beginPos: Pos,
    endPos: Pos,
    lastChildId: Link,
    values: seq<string>)

  /** A default-constructed entry: every id and position unset, no values. */
  const Unset := Annotation(NoId, NoId, NoId, NoPos, NoPos, NoId, [])

  /** The part of the fragment store this core reads and writes: the annotation
      table and the four name tables it is indexed by. */
  datatype Tables = Tables(
    annotations: seq<Annotation>,
    annotationNames: seq<string>,
    contigNames: seq<string>,
    typeNames: seq<string>,
    keyNames: seq<string>)

  /** The invariant the store keeps between records: one name per annotation, the
      root at id 0, every value slot backed by an interned key, and every entry
      other than the root linked to an existing parent. */
  predicate WellFormed(s: Tables) {
    && 1 <= |s.annotations| == |s.annotationNames|
    && (forall i :: 0 <= i < |s.annotations| ==> |s.annotations[i].values| <= |s.keyNames|)
    && (forall i :: 0 < i < |s.annotations| ==> InRange(s.annotations[i].parentId, |s.annotations|))
  }

  /** A decoded GFF/GTF line as the record codec hands it over and takes it back. */
  datatype GffRecord = GffRecord(
    ref: string,
    source: string,
    typeName: string,
    beginPos: Pos,
    endPos: Pos,
    strand: char,
    tagName: seq<string>,
    tagValue: seq<string>)

  /** A freshly constructed record, which the writers fill field by field. */
  const EmptyRecord := GffRecord("", "", "", NoPos, NoPos, '.', [], [])

  // ---------------------------------------------------------------------------
  // Interning

  /** The first index of `name` in `table`, if any. */
  function IndexOf(table: seq<string>, name: string): (r: Option<nat>)
    ensures r.None? <==> name !in table
    ensures r.Some? ==> r.value < |table| && table[r.value] == name
    ensures r.Some? ==> forall j :: 0 <= j < r.value ==> table[j] != name
  {
    if |table| == 0 then None
    else if table[0] == name then Some(0)
    else match IndexOf(table[1..], name)
      case None => None
      case Some(i) => Some(i + 1)
  }

  /** Interns `name`: the id of its first occurrence, or a new last id. Returns the
      table after the call and the id. */
  function Intern(table: seq<string>, name: string): (r: (seq<string>, nat))
    ensures table <= r.0 && r.1 < |r.0| && r.0[r.1] == name
    ensures name in table ==> r.0 == table
    ensures name !in table ==> r.0 == table + [name] && r.1 == |table|
  {
    match IndexOf(table, name)
    case Some(i) => (table, i)
    case None => (table + [name], |table|)
  }

  /** Interning a name a second time changes nothing and yields the same id. */
  lemma InternIdempotent(table: seq<string>, name: string)
    ensures Intern(Intern(table, name).0, name) == Intern(table, name)
  {
    var (t1, i) := Intern(table, name);
    if name !in table {
      assert t1[|table|] == name;
    }
  }

  /** Two different names interned one after the other get two different ids, and
      the first id still names the first name. */
  lemma InternDistinct(table: seq<string>, a: string, b: string)
    requires a != b
    ensures var (t1, ia) := Intern(table, a);
            var (t2, ib) := Intern(t1, b);
            ia != ib && ia < |t2| && t2[ia] == a && t2[ib] == b
  {
  }

  /** Interns an annotation name. An empty name is never looked up: each empty
      name gets a fresh id. */
  function InternAnnotationName(names: seq<string>, name: string): (r: (seq<string>, nat))
    ensures names <= r.0 && r.1 < |r.0| && r.0[r.1] == name
    ensures |r.0| <= |names| + 1
    ensures name == "" ==> r.1 == |names|
    ensures name != "" && name in names ==> r.0 == names
  {
    if name == "" then (names + [name], |names|) else Intern(names, name)
  }

  /** Looks up or appends the annotation named `name`. A new id gets a default entry
      whose type is `hint` when one is given; an existing entry is left alone. */
  function AppendAnnotationName(s: Tables, name: string, hint: Option<nat>): (r: (Tables, nat))
    requires |s.annotations| == |s.annotationNames|
    ensures r.1 < |r.0.annotations| == |r.0.annotationNames|
    ensures r.0.annotationNames[r.1] == name
    ensures s.annotationNames <= r.0.annotationNames && s.annotations <= r.0.annotations
    ensures r.0.contigNames == s.contigNames && r.0.typeNames == s.typeNames && r.0.keyNames == s.keyNames
    ensures r.1 < |s.annotations| ==> r.0 == s
    ensures forall i :: |s.annotations| <= i < |r.0.annotations| ==>
              i == r.1 && r.0.annotations[i].parentId == NoId && r.0.annotations[i].values == []
    ensures r.1 >= |s.annotations| ==>
              r.1 == |s.annotations| &&
              r.0.annotations == s.annotations + [if hint.Some? then Unset.(typeId := Id(hint.value)) else Unset]
  {
    var (names, id) := InternAnnotationName(s.annotationNames, name);
    if id < |s.annotationNames| then (s, id)
    else
      var row := if hint.Some? then Unset.(typeId := Id(hint.value)) else Unset;
      (s.(annotations := s.annotations + [row], annotationNames := names), id)
  }

  /** Appending a name already present and non-empty returns its id and changes
      nothing; appending it again returns the same id. */
  lemma {:induction false} AppendAnnotationNameStable(s: Tables, name: string, hint: Option<nat>, hint2: Option<nat>)
    requires |s.annotations| == |s.annotationNames| && name != ""
    ensures var (s1, id) := AppendAnnotationName(s, name, hint);
            AppendAnnotationName(s1, name, hint2) == (s1, id)
  {
    var (s1, id) := AppendAnnotationName(s, name, hint);
    InternIdempotent(s.annotationNames, name);
  }

  // ---------------------------------------------------------------------------
  // Attribute values stored per annotation, indexed by interned key

  /** Stores `value` under `key` on `a`: interns the key, grows the value list to
      reach the key's slot and writes the slot. */
  function AssignValueByKey(keyNames: seq<string>, a: Annotation, key: string, value: string): (r: (seq<string>, Annotation))
    ensures keyNames <= r.0 && |r.0| <= |keyNames| + 1
    ensures r.1 == a.(values := r.1.values)
    ensures |a.values| <= |keyNames| ==> |r.1.values| <= |r.0|
  {
    var (keys, k) := Intern(keyNames, key);
    var vals := if |a.values| <= k then a.values + seq(k + 1 - |a.values|, _ => "") else a.values;
    (keys, a.(values := vals[k := value]))
  }

  /** The value stored under `key` on `a`: absent when the key was never interned or
      the slot is missing or empty. */
  function GetValueByKey(keyNames: seq<string>, a: Annotation, key: string): (r: Option<string>)
    ensures r.Some? ==> r.value != "" && key in keyNames
  {
    match IndexOf(keyNames, key)
    case None => None
    case Some(k) => if k < |a.values| && a.values[k] != "" then Some(a.values[k]) else None
  }

  /** Reading a key after assigning it yields the assigned value (absent for an
      empty one), and every other key reads as before. */
  lemma GetAfterAssign(keyNames: seq<string>, a: Annotation, key: string, value: string, other: string)
    ensures var (ks, b) := AssignValueByKey(keyNames, a, key, value);
            && GetValueByKey(ks, b, key) == (if value == "" then None else Some(value))
            && (other != key ==> GetValueByKey(ks, b, other) == GetValueByKey(keyNames, a, other))
  {
    GetAfterAssignSame(keyNames, a, key, value);
    if other != key {
      GetAfterAssignOther(keyNames, a, key, value, other);
    }
  }

  /** The slot a key is assigned to is the slot it is read from. */
  lemma GetAfterAssignSame(keyNames: seq<string>, a: Annotation, key: string, value: string)
    ensures var (ks, b) := AssignValueByKey(keyNames, a, key, value);
            GetValueByKey(ks, b, key) == (if value == "" then None else Some(value))
  {
    var (ks, k) := Intern(keyNames, key);
    InternIdempotent(keyNames, key);
    assert IndexOf(ks, key) == Some(k);
  }

  /** Assigning a key leaves what every other key reads alone. */
  lemma GetAfterAssignOther(keyNames: seq<string>, a: Annotation, key: string, value: string, other: string)
    requires other != key
    ensures var (ks, b) := AssignValueByKey(keyNames, a, key, value);
            GetValueByKey(ks, b, other) == GetValueByKey(keyNames, a, other)
  {
    var (ks, k) := Intern(keyNames, key);
    match IndexOf(keyNames, other)
    case None =>
      assert other !in ks;
    case Some(j) =>
      assert IndexOf(ks, other) == Some(j) by {
        var j2 := IndexOf(ks, other).value;
        assert j2 < |keyNames| ==> keyNames[j2] == other;
      }
      assert j != k;
  }

  /** Interning more keys does not change what an entry whose values are all backed
      by the current keys reads under any key. */
  lemma GetValueByKeyExtend(keyNames: seq<string>, more: seq<string>, a: Annotation, key: string)
    requires keyNames <= more && |a.values| <= |keyNames|
    ensures GetValueByKey(more, a, key) == GetValueByKey(keyNames, a, key)
  {
    if key in keyNames {
      var j := IndexOf(keyNames, key).value;
      var k := IndexOf(more, key).value;
      assert more[j] == key;
      assert k <= j;
      assert keyNames[k] == more[k];
    }
  }

  // ---------------------------------------------------------------------------
  // Selecting positions of a sequence

  /** The indices `i` with `m[i]` true, in increasing order. */
  function Select(m: seq<bool>): (r: seq<nat>)
    ensures forall j :: 0 <= j < |r| ==> r[j] < |m| && m[r[j]]
    decreases |m|
  {
    if |m| == 0 then []
    else Select(m[..|m| - 1]) + (if m[|m| - 1] then [|m| - 1] else [])
  }

  /** A list that holds `src` at the selected positions of a mask keeps doing so
      when the mask grows by one entry and the list by the matching element. */
  lemma SelectAligned<T>(m0: seq<bool>, m: seq<bool>, l0: seq<T>, l: seq<T>, src: seq<T>)
    requires 0 < |m| <= |src| && m0 == m[..|m| - 1]
    requires |l0| == |Select(m0)|
    requires forall j :: 0 <= j < |l0| ==> l0[j] == src[Select(m0)[j]]
    requires l == if m[|m| - 1] then l0 + [src[|m| - 1]] else l0
    ensures |l| == |Select(m)| && forall j :: 0 <= j < |l| ==> l[j] == src[Select(m)[j]]
  {
    var idx0 := Select(m0);
    var idx := Select(m);
    forall j | 0 <= j < |l|
      ensures l[j] == src[idx[j]]
    {
      if j < |idx0| {
        assert idx[j] == idx0[j] && l[j] == l0[j];
      }
    }
  }

  /** `Select` lists every true position exactly once, in increasing order. */
  lemma SelectOrdered(m: seq<bool>)
    ensures var r := Select(m);
            && (forall j, k :: 0 <= j < k < |r| ==> r[j] < r[k])
            && (forall i :: 0 <= i < |m| && m[i] ==> i in r)
  {
    SelectIncreasing(m);
    SelectComplete(m);
  }

  /** The positions `Select` lists increase. */
  lemma {:induction false} SelectIncreasing(m: seq<bool>)
    ensures forall j, k :: 0 <= j < k < |Select(m)| ==> Select(m)[j] < Select(m)[k]
    decreases |m|
  {
    if |m| > 0 {
      var m0 := m[..|m| - 1];
      SelectIncreasing(m0);
      var r0 := Select(m0);
      var r := Select(m);
      assert r == r0 + (if m[|m| - 1] then [|m| - 1] else []);
      forall j, k | 0 <= j < k < |r|
        ensures r[j] < r[k]
      {
        assert r[j] == r0[j] && r0[j] < |m0|;
        if k < |r0| {
          assert r[k] == r0[k] && r0[j] < r0[k];
        } else {
          assert r[k] == |m| - 1;
        }
      }
    }
  }

  /** Every true position is listed by `Select`. */
  lemma {:induction false} SelectComplete(m: seq<bool>)
    ensures forall i :: 0 <= i < |m| && m[i] ==> i in Select(m)
    decreases |m|
  {
    if |m| > 0 {
      var m0 := m[..|m| - 1];
      SelectComplete(m0);
      var r0 := Select(m0);
      var r := Select(m);
      assert r == r0 + (if m[|m| - 1] then [|m| - 1] else []);
      forall i | 0 <= i < |m| && m[i]
        ensures i in r
      {
        if i < |m| - 1 {
          assert m0[i];
          assert i in r0;
        } else {
          assert r[|r| - 1] == i;
        }
      }
    }
  }

  // ---------------------------------------------------------------------------
  // Collecting the present values of a sequence of options

  /** The values of the present options, in order. */
  function Flatten<T>(os: seq<Option<T>>): seq<T>
    decreases |os|
  {
    if |os| == 0 then []
    else Flatten(os[..|os| - 1]) + (match os[|os| - 1] case None => [] case Some(x) => [x])
  }

  /** Flattening one more option appends its value, if present. */
  lemma FlattenSnoc<T>(os: seq<Option<T>>, o: Option<T>)
    ensures Flatten(os + [o]) == Flatten(os) + (match o case None => [] case Some(x) => [x])
  {
    assert (os + [o])[..|os|] == os;
  }

  /** A sequence that agrees with `b` on all of `b` and has one more element is
      `b` followed by that element. */
  lemma SnocParts<T>(a: seq<T>, b: seq<T>)
    requires |a| == |b| + 1 && forall i :: 0 <= i < |b| ==> a[i] == b[i]
    ensures a == b + [a[|b|]]
  {
  }

  /** Which options are present. */
  function PresentMask<T>(os: seq<Option<T>>): seq<bool> {
    seq(|os|, i requires 0 <= i < |os| => os[i].Some?)
  }

  /** The `j`-th flattened value is that of the `j`-th present option. */
  lemma {:induction false} FlattenSelect<T>(os: seq<Option<T>>)
    ensures var out := Flatten(os);
            var idx := Select(PresentMask(os));
            && |out| == |idx|
            && forall j :: 0 <= j < |idx| ==> os[idx[j]] == Some(out[j])
    decreases |os|
  {
    if |os| > 0 {
      var n := |os|;
      var os0 := os[..n - 1];
      FlattenSelect(os0);
      var m := PresentMask(os);
      assert m[..n - 1] == PresentMask(os0);
      var idx0 := Select(PresentMask(os0));
      var idx := Select(m);
      var out0 := Flatten(os0);
      var out := Flatten(os);
      if os[n - 1].Some? {
        assert idx == idx0 + [n - 1];
        assert out == out0 + [os[n - 1].value];
      } else {
        assert idx == idx0;
        assert out == out0;
      }
      forall j | 0 <= j < |idx|
        ensures os[idx[j]] == Some(out[j])
      {
        if j < |idx0| {
          assert idx[j] == idx0[j] && out[j] == out0[j] && os[idx0[j]] == os0[idx0[j]];
        }
      }
    }
  }
}
