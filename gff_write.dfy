/** Turning store entries back into GFF/GTF records: the common columns
    (`_writeCommonGffGtfInfo`), the GFF and GTF attribute lists
    (`_writeOneAnnotation`) and the id-order loop over the store (`_writeGffGtf`). */
module GffWrite {
  import opened Annotations
  import opened GffRead

  // ---------------------------------------------------------------------------
  // The common columns

  /** Contig name, source placeholder, type name, the bounds in numeric order and
      the strand they encode. A name is written only when its id is in range and
      the name is not empty; an unset bound leaves the record's bound unset. */
  function CommonInfo(s: Tables, a: Annotation): (r: GffRecord)
    ensures r.source == "." && r.tagName == [] && r.tagValue == []
    ensures r.ref == (if InRange(a.contigId, |s.contigNames|) then s.contigNames[a.contigId.id] else "")
    ensures r.typeName == (if InRange(a.typeId, |s.typeNames|) then s.typeNames[a.typeId.id] else "")
    ensures !Before(r.endPos, r.beginPos)
    ensures (r.beginPos, r.endPos) == (a.beginPos, a.endPos) || (r.beginPos, r.endPos) == (a.endPos, a.beginPos)
    ensures r.strand == '-' <==> Before(a.endPos, a.beginPos)
    ensures r.strand == '+' || r.strand == '-'
  {
    var ref := if InRange(a.contigId, |s.contigNames|) && |s.contigNames[a.contigId.id]| > 0 then s.contigNames[a.contigId.id]
               else EmptyRecord.ref;
    var typeName := if InRange(a.typeId, |s.typeNames|) && |s.typeNames[a.typeId.id]| > 0 then s.typeNames[a.typeId.id]
                    else EmptyRecord.typeName;
    var (b, e, o) := if Before(a.endPos, a.beginPos) then (a.endPos, a.beginPos, '-') else (a.beginPos, a.endPos, '+');
    EmptyRecord.(ref := ref, source := ".", typeName := typeName,
                 beginPos := if b != NoPos then b else EmptyRecord.beginPos,
                 endPos := if e != NoPos then e else EmptyRecord.endPos,
                 strand := o)
  }

  /** A record with `beginPos < endPos`, stored with the bounds the reader derives
      from it, is written back with its own bounds and its strand (anything but
      `'-'` coming back as `'+'`). */
  lemma StrandRoundTrip(s: Tables, record: GffRecord, a: Annotation)
    requires Before(record.beginPos, record.endPos)
    requires (a.beginPos, a.endPos) == OrientedBounds(record)
    ensures var w := CommonInfo(s, a);
            && w.beginPos == record.beginPos && w.endPos == record.endPos
            && w.strand == (if record.strand == '-' then '-' else '+')
  {
  }

  /** With `beginPos == endPos` the orientation is lost: a `'-'` record comes back
      as `'+'`. */
  lemma EmptySpanLosesStrand(s: Tables, record: GffRecord, a: Annotation)
    requires record.beginPos == record.endPos && record.strand == '-'
    requires (a.beginPos, a.endPos) == OrientedBounds(record)
    ensures CommonInfo(s, a).strand == '+'
  {
  }

  // ---------------------------------------------------------------------------
  // Stored key/value pairs, in key-id order

  /** Which value slots are filled. */
  function FilledMask(values: seq<string>): seq<bool> {
    seq(|values|, k requires 0 <= k < |values| => values[k] != "")
  }

  /** The pairs of the first `n` value slots that are filled, as two aligned lists
      of key names and values. */
  function StoredPairs(keyNames: seq<string>, values: seq<string>, n: nat): (r: (seq<string>, seq<string>))
    requires n <= |values| && n <= |keyNames|
    ensures |r.0| == |r.1| <= n
    ensures forall j :: 0 <= j < |r.1| ==> r.1[j] != ""
    decreases n
  {
    if n == 0 then ([], [])
    else
      var (ks, vs) := StoredPairs(keyNames, values, n - 1);
      if values[n - 1] != "" then (ks + [keyNames[n - 1]], vs + [values[n - 1]]) else (ks, vs)
  }

  /** The stored pairs are exactly the filled slots in increasing key-id order, each
      named by its key. */
  lemma {:induction false} StoredPairsSelect(keyNames: seq<string>, values: seq<string>, n: nat)
    requires n <= |values| && n <= |keyNames|
    ensures var (ks, vs) := StoredPairs(keyNames, values, n);
            var idx := Select(FilledMask(values[..n]));
            && |ks| == |idx|
            && forall j :: 0 <= j < |idx| ==> idx[j] < n && ks[j] == keyNames[idx[j]] && vs[j] == values[idx[j]]
  {
    if n > 0 {
      StoredPairsSelect(keyNames, values, n - 1);
      var m := FilledMask(values[..n]);
      assert m[..n - 1] == FilledMask(values[..n - 1]);
      var idx0 := Select(FilledMask(values[..n - 1]));
      var idx := Select(m);
      if values[n - 1] != "" {
        assert idx == idx0 + [n - 1];
      } else {
        assert idx == idx0;
      }
    }
  }

  // ---------------------------------------------------------------------------
  // Walking up the parent chain

  /** Where a walk looking for type `typ` stops: outside the table, or at an entry
      of that type. */
  predicate Stops(rows: seq<Annotation>, l: Link, typ: nat) {
    !InRange(l, |rows|) || rows[l.id].typeId == Id(typ)
  }

  /** The entry `k` parent steps above `l`; a walk stays put once outside the table. */
  function Up(rows: seq<Annotation>, l: Link, k: nat): Link
    decreases k
  {
    if k == 0 || !InRange(l, |rows|) then l else Up(rows, rows[l.id].parentId, k - 1)
  }

  /** The walk of the GTF writer from `l` up to the first entry of type `typ` (or
      until it leaves the table), if it stops within `fuel` steps. */
  function Ascend(rows: seq<Annotation>, l: Link, typ: nat, fuel: nat): (r: Option<Link>)
    ensures r.Some? ==> Stops(rows, r.value, typ)
    decreases fuel
  {
    if Stops(rows, l, typ) then Some(l)
    else if fuel == 0 then None
    else Ascend(rows, rows[l.id].parentId, typ, fuel - 1)
  }

  /** The walk stops at the first stopping entry of the chain: if the `k`-th
      ancestor stops and no earlier one does, the walk with enough fuel ends there,
      and a walk that ends does so at such an ancestor. */
  lemma {:induction false} AscendFirst(rows: seq<Annotation>, l: Link, typ: nat, fuel: nat, k: nat)
    requires k <= fuel
    requires forall j :: 0 <= j < k ==> !Stops(rows, Up(rows, l, j), typ)
    ensures Stops(rows, Up(rows, l, k), typ) <==> Ascend(rows, l, typ, fuel) == Some(Up(rows, l, k))
    decreases k
  {
    if k > 0 {
      assert !Stops(rows, Up(rows, l, 0), typ);
      var p := rows[l.id].parentId;
      forall j | 0 <= j < k - 1
        ensures !Stops(rows, Up(rows, p, j), typ)
      {
        assert Up(rows, l, j + 1) == Up(rows, p, j);
      }
      AscendFirst(rows, p, typ, fuel - 1, k - 1);
      assert Up(rows, l, k) == Up(rows, p, k - 1);
    }
  }

  /** How many steps a walk that ends takes. */
  function AscendSteps(rows: seq<Annotation>, l: Link, typ: nat, fuel: nat): (k: nat)
    requires Ascend(rows, l, typ, fuel).Some?
    ensures k <= fuel
    decreases fuel
  {
    if Stops(rows, l, typ) then 0 else 1 + AscendSteps(rows, rows[l.id].parentId, typ, fuel - 1)
  }

  /** A walk that ends, ends at the ancestor it reaches after its steps, and no
      earlier ancestor stops. */
  lemma {:induction false} AscendReaches(rows: seq<Annotation>, l: Link, typ: nat, fuel: nat)
    requires Ascend(rows, l, typ, fuel).Some?
    ensures var k := AscendSteps(rows, l, typ, fuel);
            && Up(rows, l, k) == Ascend(rows, l, typ, fuel).value
            && forall j :: 0 <= j < k ==> !Stops(rows, Up(rows, l, j), typ)
    decreases fuel
  {
    if !Stops(rows, l, typ) {
      var p := rows[l.id].parentId;
      AscendReaches(rows, p, typ, fuel - 1);
      var k := AscendSteps(rows, p, typ, fuel - 1);
      assert Up(rows, l, k + 1) == Up(rows, p, k);
      forall j | 0 <= j < k + 1
        ensures !Stops(rows, Up(rows, l, j), typ)
      {
        if j > 0 { assert Up(rows, l, j) == Up(rows, p, j - 1); }
      }
    }
  }

  // ---------------------------------------------------------------------------
  // One record per entry

  /** The two dialects a store is written in. */
  datatype Format = Gff | Gtf

  /** A tag pair when a value is present, nothing otherwise: two aligned lists of
      at most one element, empty exactly when the value is absent. */
  function OptionalTag(key: string, value: Option<string>): (r: (seq<string>, seq<string>))
    ensures |r.0| == |r.1| <= 1
    ensures r.0 == [] <==> value.None?
    ensures r.0 != [] ==> r.0[0] == key && r.1[0] == value.value
  {
    match value
    case None => ([], [])
    case Some(v) => ([key], [v])
  }

  /** What the GFF writer needs to read entry `id` without leaving the tables: a
      parent in range, and value slots backed by keys. The root is never read. */
  predicate GffWritable(s: Tables, a: Annotation, id: nat) {
    id != 0 ==> InRange(a.parentId, |s.annotations|) && |a.values| <= |s.keyNames|
  }

  /** The value the GFF writer appends for `ID`: the entry's name, or its unique
      name when it has children but no name, or none. */
  function IdValue(s: Tables, uniqueName: nat -> string, a: Annotation, id: nat): (r: seq<string>)
    ensures |r| <= 1
    ensures id < |s.annotationNames| && s.annotationNames[id] != "" ==> r == [s.annotationNames[id]]
    ensures r == [] <==> (id >= |s.annotationNames| || s.annotationNames[id] == "") && a.lastChildId == NoId
  {
    if id < |s.annotationNames| && s.annotationNames[id] != "" then [s.annotationNames[id]]
    else if a.lastChildId != NoId then [uniqueName(id)]
    else []
  }

  /** The `ID` test as the source writes it: the first tag value must exist. */
  function IdKeyAsWritten(tagValue: seq<string>): bool
    requires |tagValue| > 0
  {
    |tagValue[0]| > 0
  }

  /** An unnamed entry without children gets no `ID` value, so the source's `ID`
      test reads the first element of an empty list. */
  lemma UnnamedLeafHasNoIdValue(s: Tables, uniqueName: nat -> string, a: Annotation, id: nat)
    requires id != 0 && id < |s.annotationNames| && s.annotationNames[id] == "" && a.lastChildId == NoId
    ensures |IdValue(s, uniqueName, a, id)| == 0
  {
  }

  /** The value list the source's `ID` test reads is the `ID` value alone. The test
      as written is defined exactly when that value exists, i.e. not for an unnamed
      entry without children, and where it is defined it agrees with the guarded
      test of `GffLine`. */
  lemma IdTestAsWritten(s: Tables, uniqueName: nat -> string, a: Annotation, id: nat)
    ensures var tv := CommonInfo(s, a).tagValue + IdValue(s, uniqueName, a, id);
            && tv == IdValue(s, uniqueName, a, id)
            && (|tv| > 0 <==> (id < |s.annotationNames| && s.annotationNames[id] != "") || a.lastChildId != NoId)
            && (|tv| > 0 ==> IdKeyAsWritten(tv) == (|tv| > 0 && |tv[0]| > 0))
  {
  }

  /** The GFF record of entry `id`: nothing for the root; otherwise the common
      columns, then `ID` with the entry's name (or its unique name when it has
      children but no name), then `Parent` with the parent's unique name unless the
      parent is the root or deleted, then the stored pairs in key-id order. The
      `ID` key is written only when its value is not empty. */
  function GffLine(s: Tables, uniqueName: nat -> string, a: Annotation, id: nat): Option<GffRecord>
    requires GffWritable(s, a, id)
  {
    if id == 0 then None
    else
      var idValue := IdValue(s, uniqueName, a, id);
      var idName := if |idValue| > 0 && |idValue[0]| > 0 then ["ID"] else [];
      var parentTag :=
        OptionalTag("Parent", if !AtMost(s.annotations[a.parentId.id].typeId, 1) then Some(uniqueName(a.parentId.id)) else None);
      var (ks, vs) := StoredPairs(s.keyNames, a.values, |a.values|);
      Some(CommonInfo(s, a).(tagName := idName + parentTag.0 + ks, tagValue := idValue + parentTag.1 + vs))
  }

  /** What the GTF writer needs for entry `a`: both walks up the parent chain end,
      and its value slots are backed by keys. Entries typed root, deleted, gene or
      transcript are never read. */
  predicate GtfWritable(s: Tables, a: Annotation) {
    var rows := s.annotations;
    !AtMost(a.typeId, AnnoMrna) ==>
      && |a.values| <= |s.keyNames|
      && Ascend(rows, a.parentId, AnnoMrna, |rows|).Some?
      && Ascend(rows, Ascend(rows, a.parentId, AnnoMrna, |rows|).value, AnnoGene, |rows|).Some?
  }

  /** The transcript and gene ancestors the GTF writer names for an entry. */
  function TranscriptOf(s: Tables, a: Annotation): (t: Link)
    requires GtfWritable(s, a) && !AtMost(a.typeId, AnnoMrna)
    ensures Stops(s.annotations, t, AnnoMrna)
  {
    Ascend(s.annotations, a.parentId, AnnoMrna, |s.annotations|).value
  }

  function GeneOf(s: Tables, a: Annotation): (g: Link)
    requires GtfWritable(s, a) && !AtMost(a.typeId, AnnoMrna)
    ensures Stops(s.annotations, g, AnnoGene)
  {
    Ascend(s.annotations, TranscriptOf(s, a), AnnoGene, |s.annotations|).value
  }

  /** A value looked up on the entry `l`, absent when `l` is outside the table. */
  function ValueAt(s: Tables, l: Link, key: string): Option<string> {
    if InRange(l, |s.annotations|) then GetValueByKey(s.keyNames, s.annotations[l.id], key) else None
  }

  /** The leading GTF pairs: the gene ancestor's `gene_name` and the transcript
      ancestor's `transcript_name` when set, then `ID` when the entry is named. */
  function GtfHead(s: Tables, a: Annotation, id: nat): (r: (seq<string>, seq<string>))
    requires GtfWritable(s, a) && !AtMost(a.typeId, AnnoMrna)
    ensures |r.0| == |r.1|
  {
    var geneName := OptionalTag("gene_name", ValueAt(s, GeneOf(s, a), "gene_name"));
    var transcriptName := OptionalTag("transcript_name", ValueAt(s, TranscriptOf(s, a), "transcript_name"));
    var idTag := OptionalTag("ID", if id < |s.annotationNames| && s.annotationNames[id] != "" then Some(s.annotationNames[id]) else None);
    (geneName.0 + transcriptName.0 + idTag.0, geneName.1 + transcriptName.1 + idTag.1)
  }

  /** Where the leading GTF pairs sit: `gene_name` first when the gene ancestor
      has one, `transcript_name` next when the transcript ancestor has one, and
      `ID` last exactly when the entry is named. */
  lemma GtfHeadLayout(s: Tables, a: Annotation, id: nat)
    requires GtfWritable(s, a) && !AtMost(a.typeId, AnnoMrna)
    ensures var r := GtfHead(s, a, id);
            var named := id < |s.annotationNames| && s.annotationNames[id] != "";
            var gn := ValueAt(s, GeneOf(s, a), "gene_name");
            var tn := ValueAt(s, TranscriptOf(s, a), "transcript_name");
            && |r.0| == (if gn.Some? then 1 else 0) + (if tn.Some? then 1 else 0) + (if named then 1 else 0)
            && (gn.Some? ==> r.0[0] == "gene_name" && r.1[0] == gn.value)
            && (tn.Some? ==> var k := if gn.Some? then 1 else 0; r.0[k] == "transcript_name" && r.1[k] == tn.value)
            && (named ==> r.0[|r.0| - 1] == "ID" && r.1[|r.1| - 1] == s.annotationNames[id])
            && (forall j :: 0 <= j < |r.0| - (if named then 1 else 0) ==> r.0[j] != "ID")
  {
  }

  /** The trailing GTF pairs: `gene_id` and `transcript_id` with the unique names of
      the ancestors that exist. */
  function GtfTail(s: Tables, uniqueName: nat -> string, a: Annotation): (r: (seq<string>, seq<string>))
    requires GtfWritable(s, a) && !AtMost(a.typeId, AnnoMrna)
    ensures |r.0| == |r.1|
  {
    var rows := s.annotations;
    var t := TranscriptOf(s, a);
    var g := GeneOf(s, a);
    var geneId := if InRange(g, |rows|) then (["gene_id"], [uniqueName(g.id)]) else ([], []);
    var transcriptId := if InRange(t, |rows|) then (["transcript_id"], [uniqueName(t.id)]) else ([], []);
    (geneId.0 + transcriptId.0, geneId.1 + transcriptId.1)
  }

  /** The trailing GTF pairs name both ancestors when both exist, only the
      transcript when no gene lies above it, and nothing when there is no
      transcript: a gene is only ever found above a transcript. */
  lemma GtfTailLayout(s: Tables, uniqueName: nat -> string, a: Annotation)
    requires GtfWritable(s, a) && !AtMost(a.typeId, AnnoMrna)
    ensures var r := GtfTail(s, uniqueName, a);
            var t := TranscriptOf(s, a);
            var g := GeneOf(s, a);
            var n := |s.annotations|;
            && (InRange(g, n) && InRange(t, n) ==> r == (["gene_id", "transcript_id"], [uniqueName(g.id), uniqueName(t.id)]))
            && (!InRange(g, n) && InRange(t, n) ==> r == (["transcript_id"], [uniqueName(t.id)]))
            && (!InRange(t, n) ==> r == ([], []))
  {
    var rows := s.annotations;
    var t := TranscriptOf(s, a);
    var g := GeneOf(s, a);
    var res := GtfTail(s, uniqueName, a);
    if !InRange(t, |rows|) {
      assert Ascend(rows, t, AnnoGene, |rows|) == Some(t);
      assert res.0 == [] && res.1 == [];
    } else if InRange(g, |rows|) {
      assert res.0 == ["gene_id", "transcript_id"] && res.1 == [uniqueName(g.id), uniqueName(t.id)];
    } else {
      assert res.0 == ["transcript_id"] && res.1 == [uniqueName(t.id)];
    }
  }

  /** The GTF record of an entry: nothing for root, deleted, gene and transcript
      entries; otherwise the common columns, the leading pairs, the stored pairs in
      key-id order and the trailing `gene_id` and `transcript_id`. */
  function GtfLine(s: Tables, uniqueName: nat -> string, a: Annotation, id: nat): Option<GffRecord>
    requires GtfWritable(s, a)
  {
    if AtMost(a.typeId, AnnoMrna) then None
    else
      var head := GtfHead(s, a, id);
      var (ks, vs) := StoredPairs(s.keyNames, a.values, |a.values|);
      var tail := GtfTail(s, uniqueName, a);
      Some(CommonInfo(s, a).(tagName := head.0 + ks + tail.0, tagValue := head.1 + vs + tail.1))
  }

  predicate Writable(s: Tables, f: Format, a: Annotation, id: nat) {
    match f
    case Gff => GffWritable(s, a, id)
    case Gtf => GtfWritable(s, a)
  }

  function Line(s: Tables, uniqueName: nat -> string, f: Format, a: Annotation, id: nat): Option<GffRecord>
    requires Writable(s, f, a, id)
  {
    match f
    case Gff => GffLine(s, uniqueName, a, id)
    case Gtf => GtfLine(s, uniqueName, a, id)
  }

  /** Every entry of the store can be written. */
  predicate StoreWritable(s: Tables, f: Format) {
    forall id :: 0 <= id < |s.annotations| ==> Writable(s, f, s.annotations[id], id)
  }

  /** A well-formed store can always be written as GFF: every non-root entry has
      its parent in the table and its values backed by keys. */
  lemma WellFormedGffWritable(s: Tables)
    requires WellFormed(s)
    ensures StoreWritable(s, Gff)
  {
  }

  function Lines(o: Option<GffRecord>): seq<GffRecord> {
    match o
    case None => []
    case Some(r) => [r]
  }

  /** The records written for the first `n` entries, in id order. */
  function Serialize(s: Tables, uniqueName: nat -> string, f: Format, n: nat): seq<GffRecord>
    requires n <= |s.annotations| && StoreWritable(s, f)
    decreases n
  {
    if n == 0 then []
    else Serialize(s, uniqueName, f, n - 1) + Lines(Line(s, uniqueName, f, s.annotations[n - 1], n - 1))
  }

  /** The entries a dialect writes a record for: every one but the root in GFF,
      the ones typed above transcript in GTF. */
  predicate Emits(f: Format, a: Annotation, id: nat) {
    match f
    case Gff => id != 0
    case Gtf => !AtMost(a.typeId, AnnoMrna)
  }

  /** Which of the first `n` entries are written. */
  function EmitMask(s: Tables, f: Format, n: nat): seq<bool>
    requires n <= |s.annotations|
  {
    seq(n, i requires 0 <= i < n => Emits(f, s.annotations[i], i))
  }

  /** A record is written exactly for the entries the dialect emits. */
  lemma LineEmits(s: Tables, uniqueName: nat -> string, f: Format, a: Annotation, id: nat)
    requires Writable(s, f, a, id)
    ensures Line(s, uniqueName, f, a, id).Some? <==> Emits(f, a, id)
  {
    match f
    case Gff => GffLineRoot(s, uniqueName, a, id);
    case Gtf => GtfLineSkips(s, uniqueName, a, id);
  }

  /** The records of the first `n` entries, `None` where nothing is written. */
  function Entries(s: Tables, uniqueName: nat -> string, f: Format, n: nat): (r: seq<Option<GffRecord>>)
    requires n <= |s.annotations| && StoreWritable(s, f)
    ensures |r| == n
  {
    seq(n, i requires 0 <= i < n => Line(s, uniqueName, f, s.annotations[i], i))
  }

  /** Serializing is collecting the records that are written, in id order. */
  lemma {:induction false} SerializeFlatten(s: Tables, uniqueName: nat -> string, f: Format, n: nat)
    requires n <= |s.annotations| && StoreWritable(s, f)
    ensures Serialize(s, uniqueName, f, n) == Flatten(Entries(s, uniqueName, f, n))
    decreases n
  {
    if n > 0 {
      SerializeFlatten(s, uniqueName, f, n - 1);
      var es := Entries(s, uniqueName, f, n);
      var es0 := Entries(s, uniqueName, f, n - 1);
      forall i | 0 <= i < n - 1
        ensures es[i] == es0[i]
      {
      }
      SnocParts(es, es0);
      FlattenSnoc(es0, es[n - 1]);
    }
  }

  /** The entries that get a record are the ones the dialect emits. */
  lemma EntriesMask(s: Tables, uniqueName: nat -> string, f: Format, n: nat)
    requires n <= |s.annotations| && StoreWritable(s, f)
    ensures PresentMask(Entries(s, uniqueName, f, n)) == EmitMask(s, f, n)
  {
    var es := Entries(s, uniqueName, f, n);
    forall i | 0 <= i < n
      ensures es[i].Some? == Emits(f, s.annotations[i], i)
    {
      LineEmits(s, uniqueName, f, s.annotations[i], i);
    }
  }

  /** The written records are the records of the emitted entries, one each, in id
      order. */
  lemma SerializeSelect(s: Tables, uniqueName: nat -> string, f: Format, n: nat)
    requires n <= |s.annotations| && StoreWritable(s, f)
    ensures var out := Serialize(s, uniqueName, f, n);
            var idx := Select(EmitMask(s, f, n));
            && |out| == |idx|
            && forall j :: 0 <= j < |idx| ==> idx[j] < n && Entries(s, uniqueName, f, n)[idx[j]] == Some(out[j])
  {
    SerializeFlatten(s, uniqueName, f, n);
    EntriesMask(s, uniqueName, f, n);
    FlattenSelect(Entries(s, uniqueName, f, n));
  }

  /** In GFF the `j`-th record is that of entry `j + 1`: every entry but the root
      is written. */
  lemma SerializeGffAll(s: Tables, uniqueName: nat -> string, n: nat)
    requires 1 <= n <= |s.annotations| && StoreWritable(s, Gff)
    ensures var out := Serialize(s, uniqueName, Gff, n);
            && |out| == n - 1
            && forall j :: 0 <= j < n - 1 ==> Entries(s, uniqueName, Gff, n)[j + 1] == Some(out[j])
  {
    GffEmitIndices(s, n);
    SerializeSelect(s, uniqueName, Gff, n);
  }

  /** The GFF writer emits entries `1, 2, ...`. */
  lemma GffEmitIndices(s: Tables, n: nat)
    requires 1 <= n <= |s.annotations|
    ensures |Select(EmitMask(s, Gff, n))| == n - 1
    ensures forall j :: 0 <= j < n - 1 ==> Select(EmitMask(s, Gff, n))[j] == j + 1
  {
    var m := EmitMask(s, Gff, n);
    assert !m[0];
    assert forall i :: 1 <= i < n ==> m[i];
    SelectAllButFirst(m);
  }

  /** Selecting from a mask that is false only at position 0 yields `1, 2, ...`. */
  lemma {:induction false} SelectAllButFirst(m: seq<bool>)
    requires 1 <= |m| && !m[0]
    requires forall i :: 1 <= i < |m| ==> m[i]
    ensures |Select(m)| == |m| - 1
    ensures forall j :: 0 <= j < |m| - 1 ==> Select(m)[j] == j + 1
    decreases |m|
  {
    if |m| > 1 {
      SelectAllButFirst(m[..|m| - 1]);
    }
  }


  // ---------------------------------------------------------------------------
  // What the records say

  /** The GFF writer writes a record for every entry but the root. */
  lemma GffLineRoot(s: Tables, uniqueName: nat -> string, a: Annotation, id: nat)
    requires GffWritable(s, a, id)
    ensures GffLine(s, uniqueName, a, id).None? <==> id == 0
  {
  }

  /** The GFF record of a non-root entry: the common columns; `ID` first with the
      entry's name, or with its unique name when it has children but no name;
      `Parent` with the parent's unique name right after, exactly when the parent
      is neither the root nor deleted; and the stored pairs last, in key-id order,
      skipping empty values. The two tag lists fall out of step exactly when an
      unnamed entry with children has an empty unique name: its value is written
      without the `ID` key. */
  lemma GffLineTags(s: Tables, uniqueName: nat -> string, a: Annotation, id: nat)
    requires GffWritable(s, a, id) && id != 0
    ensures var r := GffLine(s, uniqueName, a, id).value;
            var named := id < |s.annotationNames| && s.annotationNames[id] != "";
            var idv := if named then s.annotationNames[id] else if a.lastChildId != NoId then uniqueName(id) else "";
            var k := if idv != "" then 1 else 0;
            var p := a.parentId.id;
            var hasParent := !AtMost(s.annotations[p].typeId, 1);
            var idx := Select(FilledMask(a.values));
            && r.(tagName := [], tagValue := []) == CommonInfo(s, a)
            && (idv != "" ==> r.tagName[0] == "ID" && r.tagValue[0] == idv)
            && (|r.tagName| == |r.tagValue| <==> named || a.lastChildId == NoId || uniqueName(id) != "")
            && |r.tagName| == k + (if hasParent then 1 else 0) + |idx|
            && (hasParent ==> r.tagName[k] == "Parent")
            && (forall j :: 0 <= j < |idx| ==> r.tagName[|r.tagName| - |idx| + j] == s.keyNames[idx[j]])
            && (|r.tagName| == |r.tagValue| ==>
                  && (hasParent ==> r.tagValue[k] == uniqueName(p))
                  && (forall j :: 0 <= j < |idx| ==> r.tagValue[|r.tagValue| - |idx| + j] == a.values[idx[j]]))
  {
    StoredPairsSelect(s.keyNames, a.values, |a.values|);
    assert a.values[..|a.values|] == a.values;
  }

  /** No filled value slot is named `ID` or by a parent-link key, nor, with
      `gene` set, `gene_id`: no stored pair competes with the structural tags. */
  predicate NoCompetingValues(keyNames: seq<string>, values: seq<string>, gene: bool)
    requires |values| <= |keyNames|
  {
    forall j :: 0 <= j < |values| && values[j] != "" ==>
      keyNames[j] != "ID" && keyNames[j] !in ParentKeys && (gene ==> keyNames[j] != "gene_id")
  }

  /** The GFF tag lists of a non-root entry: the `ID` part, the `Parent` part and
      the stored pairs, one after the other. */
  lemma GffLineParts(s: Tables, uniqueName: nat -> string, a: Annotation, id: nat)
    requires GffWritable(s, a, id) && id != 0
    requires |IdValue(s, uniqueName, a, id)| == 1 ==> IdValue(s, uniqueName, a, id)[0] != ""
    ensures var r := GffLine(s, uniqueName, a, id).value;
            var idv := IdValue(s, uniqueName, a, id);
            var p := a.parentId.id;
            var hasParent := !AtMost(s.annotations[p].typeId, 1);
            var h := |idv| + (if hasParent then 1 else 0);
            var stored := StoredPairs(s.keyNames, a.values, |a.values|);
            && |r.tagName| == |r.tagValue| == h + |stored.0|
            && r.tagName[h..] == stored.0 && r.tagValue[h..] == stored.1
            && (idv != [] ==> r.tagName[0] == "ID" && r.tagValue[0] == idv[0])
            && (hasParent ==> r.tagName[|idv|] == "Parent" && r.tagValue[|idv|] == uniqueName(p))
  {
  }

  /** Reading a GFF record back: the reader takes the written `ID` value as the
      record's name and the written `Parent` as its link, provided no stored key
      competes with them. */
  lemma GffLineReadBack(s: Tables, uniqueName: nat -> string, a: Annotation, id: nat)
    requires GffWritable(s, a, id) && id != 0
    requires NoCompetingValues(s.keyNames, a.values, false)
    requires |IdValue(s, uniqueName, a, id)| == 1 ==> IdValue(s, uniqueName, a, id)[0] != ""
    ensures var r := GffLine(s, uniqueName, a, id).value;
            var p := a.parentId.id;
            var hasParent := !AtMost(s.annotations[p].typeId, 1);
            var idv := IdValue(s, uniqueName, a, id);
            && |r.tagName| == |r.tagValue|
            && var c := Classify(r.tagName, r.tagValue, |r.tagName|);
               && c.annotationName == (if idv == [] then "" else idv[0])
               && c.parentKey == (if hasParent then "Parent" else "")
               && c.parentName == (if hasParent then uniqueName(p) else "")
  {
    var r := GffLine(s, uniqueName, a, id).value;
    var idv := IdValue(s, uniqueName, a, id);
    var p := a.parentId.id;
    var hasParent := !AtMost(s.annotations[p].typeId, 1);
    var h := |idv| + (if hasParent then 1 else 0);
    GffLineParts(s, uniqueName, a, id);
    var ks := StoredPairs(s.keyNames, a.values, |a.values|).0;
    StoredNoCompeting(s.keyNames, a.values, false);
    SuffixNotStructural(r.tagName, h, ks);
    ClassifyHead(r.tagName, r.tagValue, h);
    HeadClassify(r.tagName, r.tagValue, idv != [], if idv != [] then idv[0] else "", hasParent, uniqueName(p));
  }

  /** The record name and parent link read from an `ID` tag (or none) followed by a
      `Parent` tag (or none). */
  lemma HeadClassify(names: seq<string>, vals: seq<string>, hasId: bool, idv: string, hasParent: bool, pv: string)
    requires (if hasId then 1 else 0) + (if hasParent then 1 else 0) <= |names| <= |vals|
    requires hasId ==> names[0] == "ID" && vals[0] == idv
    requires hasParent ==> var k := if hasId then 1 else 0; names[k] == "Parent" && vals[k] == pv
    ensures var c := Classify(names, vals, (if hasId then 1 else 0) + (if hasParent then 1 else 0));
            && c.annotationName == (if hasId then idv else "")
            && c.parentKey == (if hasParent then "Parent" else "")
            && c.parentName == (if hasParent then pv else "")
  {
    var k := if hasId then 1 else 0;
    var c0 := Classify(names, vals, 0);
    var c1 := Classify(names, vals, k);
    if hasId {
      assert c1 == ClassifyTag(c0, names[0], vals[0]);
      ClassifyTagFields(c0, names[0], vals[0]);
    }
    if hasParent {
      assert Classify(names, vals, k + 1) == ClassifyTag(c1, names[k], vals[k]);
      ClassifyTagFields(c1, names[k], vals[k]);
    }
  }



  /** The GTF writer writes a record exactly for the entries typed above transcript. */
  lemma GtfLineSkips(s: Tables, uniqueName: nat -> string, a: Annotation, id: nat)
    requires GtfWritable(s, a)
    ensures GtfLine(s, uniqueName, a, id).None? <==> AtMost(a.typeId, AnnoMrna)
  {
  }

  /** The GTF record of a feature is the common columns with the leading pairs,
      the stored pairs and the trailing pairs one after the other. */
  lemma GtfLineParts(s: Tables, uniqueName: nat -> string, a: Annotation, id: nat)
    requires GtfWritable(s, a) && !AtMost(a.typeId, AnnoMrna)
    ensures var r := GtfLine(s, uniqueName, a, id).value;
            var head := GtfHead(s, a, id);
            var stored := StoredPairs(s.keyNames, a.values, |a.values|);
            var tail := GtfTail(s, uniqueName, a);
            && r.(tagName := [], tagValue := []) == CommonInfo(s, a)
            && r.tagName == head.0 + stored.0 + tail.0 && r.tagValue == head.1 + stored.1 + tail.1
  {
  }

  /** Where the parts of a tag list sit when the stored pairs of `values` are
      framed by a head and a tail. */
  lemma StoredLayout(names: seq<string>, vals: seq<string>, h0: seq<string>, h1: seq<string>,
                     keyNames: seq<string>, values: seq<string>, t0: seq<string>, t1: seq<string>)
    requires |values| <= |keyNames| && |h0| == |h1| && |t0| == |t1|
    requires names == h0 + StoredPairs(keyNames, values, |values|).0 + t0
    requires vals == h1 + StoredPairs(keyNames, values, |values|).1 + t1
    ensures var idx := Select(FilledMask(values));
            var n := |names|;
            && n == |vals| == |h0| + |idx| + |t0|
            && names[..|h0|] == h0 && vals[..|h0|] == h1
            && (forall j :: 0 <= j < |idx| ==> names[|h0| + j] == keyNames[idx[j]] && vals[|h0| + j] == values[idx[j]])
            && names[n - |t0|..] == t0 && vals[n - |t0|..] == t1
  {
    var (ks, vs) := StoredPairs(keyNames, values, |values|);
    ConcatParts(h0, ks, t0);
    ConcatParts(h1, vs, t1);
    StoredPairsSelect(keyNames, values, |values|);
    assert values[..|values|] == values;
  }


  /** Where the three parts of a concatenation sit. */
  lemma ConcatParts(h: seq<string>, m: seq<string>, t: seq<string>)
    ensures var x := h + m + t;
            && |x| == |h| + |m| + |t|
            && x[..|h|] == h && x[|x| - |t|..] == t
            && forall j :: 0 <= j < |m| ==> x[|h| + j] == m[j]
  {
    var x := h + m + t;
    assert x[..|h|] == h;
    assert x[|x| - |t|..] == t;
  }


  /** The shape of a written GTF attribute list as the reader sees it: it ends in
      `gene_id` and `transcript_id`, and holds `ID` only at position `h - 1`, and
      there exactly when `named`. */
  predicate GtfTagShape(names: seq<string>, vals: seq<string>, h: nat, named: bool, idv: string) {
    && 2 <= |names| == |vals| && h <= |names| - 2
    && names[|names| - 2] == "gene_id" && names[|names| - 1] == "transcript_id"
    && (forall j :: h <= j < |names| ==> names[j] != "ID")
    && (named ==> 1 <= h && names[h - 1] == "ID" && vals[h - 1] == idv)
    && (!named ==> forall j :: 0 <= j < h ==> names[j] != "ID")
  }

  /** The structural tags read from a GTF attribute list of that shape. */
  lemma ClassifyGtfTags(names: seq<string>, vals: seq<string>, h: nat, named: bool, idv: string)
    requires GtfTagShape(names, vals, h, named, idv)
    ensures var c := Classify(names, vals, |names|);
            && c.gtfGeneId == vals[|names| - 2]
            && c.parentKey == "transcript_id" && c.parentName == vals[|names| - 1]
            && c.annotationName == (if named then idv else "")
  {
    var n := |names|;
    ClassifyStructuralTags(names, vals, n);
    TailIndices(names, vals);
    IdIndex(names, vals, h, named, idv);
  }

  /** In a tag list ending in `gene_id`, `transcript_id`, the parent link is the
      last tag and the gene the one before it. */
  lemma TailIndices(names: seq<string>, vals: seq<string>)
    requires 2 <= |names| <= |vals|
    requires names[|names| - 2] == "gene_id" && names[|names| - 1] == "transcript_id"
    ensures LastKey(names, |names|, ParentKeys) == "transcript_id"
    ensures LastValue(names, vals, |names|, ParentKeys) == vals[|names| - 1]
    ensures LastValue(names, vals, |names|, {"gene_id"}) == vals[|names| - 2]
  {
    var n := |names|;
    assert names[n - 1] in ParentKeys;
    assert names[n - 1] !in {"gene_id"};
    assert LastIndex(names, n, {"gene_id"}) == LastIndex(names, n - 1, {"gene_id"});
  }

  /** The position of the last `ID` tag when no tag from `h` on is one. */
  lemma IdIndex(names: seq<string>, vals: seq<string>, h: nat, named: bool, idv: string)
    requires h <= |names| <= |vals|
    requires forall j :: h <= j < |names| ==> names[j] != "ID"
    requires named ==> 1 <= h && names[h - 1] == "ID" && vals[h - 1] == idv
    requires !named ==> forall j :: 0 <= j < h ==> names[j] != "ID"
    ensures LastValue(names, vals, |names|, {"ID"}) == (if named then idv else "")
  {
    LastIndexSuffix(names, h, |names|, {"ID"});
    if !named {
      LastIndexSuffix(names, 0, h, {"ID"});
    }
  }


  /** A written GTF feature record has the shape the reader expects: `ID` only
      where the leading pairs put it, and the `gene_id` and `transcript_id` tags of
      the two ancestors last. */
  lemma GtfLineShape(s: Tables, uniqueName: nat -> string, a: Annotation, id: nat)
    requires GtfWritable(s, a) && !AtMost(a.typeId, AnnoMrna)
    requires InRange(GeneOf(s, a), |s.annotations|) && InRange(TranscriptOf(s, a), |s.annotations|)
    requires NoCompetingValues(s.keyNames, a.values, true)
    ensures var r := GtfLine(s, uniqueName, a, id).value;
            var named := id < |s.annotationNames| && s.annotationNames[id] != "";
            && GtfTagShape(r.tagName, r.tagValue, |GtfHead(s, a, id).0|, named, if named then s.annotationNames[id] else "")
            && r.tagValue[|r.tagName| - 2] == uniqueName(GeneOf(s, a).id)
            && r.tagValue[|r.tagName| - 1] == uniqueName(TranscriptOf(s, a).id)
  {
    var r := GtfLine(s, uniqueName, a, id).value;
    var head := GtfHead(s, a, id);
    var tail := GtfTail(s, uniqueName, a);
    var named := id < |s.annotationNames| && s.annotationNames[id] != "";
    var idv := if named then s.annotationNames[id] else "";
    var stored := StoredPairs(s.keyNames, a.values, |a.values|);
    GtfLineParts(s, uniqueName, a, id);
    GtfHeadLayout(s, a, id);
    GtfTailLayout(s, uniqueName, a);
    StoredNoCompeting(s.keyNames, a.values, true);
    GtfTagPositions(r.tagName, r.tagValue, head.0, head.1, stored.0, stored.1, tail.0, tail.1, named, idv);
  }

  /** Reading a GTF feature record back: the reader takes the written `gene_id` and
      `transcript_id` as the gene hint and the parent link, and the written `ID` as
      the record's name, provided no stored key competes with them. */
  lemma GtfLineReadBack(s: Tables, uniqueName: nat -> string, a: Annotation, id: nat)
    requires GtfWritable(s, a) && !AtMost(a.typeId, AnnoMrna)
    requires InRange(GeneOf(s, a), |s.annotations|) && InRange(TranscriptOf(s, a), |s.annotations|)
    requires NoCompetingValues(s.keyNames, a.values, true)
    ensures var r := GtfLine(s, uniqueName, a, id).value;
            var named := id < |s.annotationNames| && s.annotationNames[id] != "";
            && |r.tagName| == |r.tagValue|
            && var c := Classify(r.tagName, r.tagValue, |r.tagName|);
               && c.gtfGeneId == uniqueName(GeneOf(s, a).id)
               && c.parentKey == "transcript_id"
               && c.parentName == uniqueName(TranscriptOf(s, a).id)
               && c.annotationName == (if named then s.annotationNames[id] else "")
  {
    var r := GtfLine(s, uniqueName, a, id).value;
    var named := id < |s.annotationNames| && s.annotationNames[id] != "";
    GtfLineShape(s, uniqueName, a, id);
    ClassifyGtfTags(r.tagName, r.tagValue, |GtfHead(s, a, id).0|, named, if named then s.annotationNames[id] else "");
  }

  /** Where the structural tags sit in a GTF attribute list made of a head, pairs
      none of which is keyed `ID`, and a `gene_id`, `transcript_id` tail. */
  lemma GtfTagPositions(names: seq<string>, vals: seq<string>, h0: seq<string>, h1: seq<string>,
                        ks: seq<string>, vs: seq<string>, t0: seq<string>, t1: seq<string>, named: bool, idv: string)
    requires |ks| == |vs| && |h0| == |h1| && |t1| == 2 && t0 == ["gene_id", "transcript_id"]
    requires names == h0 + ks + t0
    requires vals == h1 + vs + t1
    requires forall j :: 0 <= j < |ks| ==> ks[j] != "ID"
    requires named ==> 1 <= |h0| && h0[|h0| - 1] == "ID" && h1[|h1| - 1] == idv
    requires forall j :: 0 <= j < |h0| - (if named then 1 else 0) ==> h0[j] != "ID"
    ensures GtfTagShape(names, vals, |h0|, named, idv)
    ensures vals[|names| - 2] == t1[0] && vals[|names| - 1] == t1[1]
  {
    var h := |h0|;
    ConcatParts(h0, ks, ["gene_id", "transcript_id"]);
    ConcatParts(h1, vs, t1);
    var n := |names|;
    assert names[n - 2..] == ["gene_id", "transcript_id"] && vals[n - 2..] == t1;
    forall j | h <= j < n
      ensures names[j] != "ID"
    {
      if j < h + |ks| {
        assert names[j] == ks[j - h];
      } else {
        assert names[j] == names[n - 2..][j - (n - 2)];
      }
    }
    forall j | 0 <= j < h - (if named then 1 else 0)
      ensures names[j] != "ID"
    {
      assert names[j] == names[..h][j];
    }
    if named {
      assert names[h - 1] == names[..h][h - 1];
      assert vals[h - 1] == vals[..h][h - 1];
    }
    assert names[n - 2] == names[n - 2..][0] && names[n - 1] == names[n - 2..][1];
    assert vals[n - 2] == vals[n - 2..][0] && vals[n - 1] == vals[n - 2..][1];
  }

  /** With no competing key, no stored pair is keyed `ID`, by a parent-link key
      or, with `gene` set, `gene_id`. */
  lemma StoredNoCompeting(keyNames: seq<string>, values: seq<string>, gene: bool)
    requires |values| <= |keyNames| && NoCompetingValues(keyNames, values, gene)
    ensures var ks := StoredPairs(keyNames, values, |values|).0;
            forall j :: 0 <= j < |ks| ==> ks[j] != "ID" && ks[j] !in ParentKeys && (gene ==> ks[j] != "gene_id")
  {
    StoredPairsSelect(keyNames, values, |values|);
    assert values[..|values|] == values;
    var ks := StoredPairs(keyNames, values, |values|).0;
    var idx := Select(FilledMask(values));
    forall j | 0 <= j < |ks|
      ensures ks[j] != "ID" && ks[j] !in ParentKeys && (gene ==> ks[j] != "gene_id")
    {
      assert FilledMask(values)[idx[j]];
    }
  }

  /** A suffix of tags none of which is `ID` or a parent link. */
  lemma SuffixNotStructural(names: seq<string>, h: nat, ks: seq<string>)
    requires h <= |names| && names[h..] == ks
    requires forall j :: 0 <= j < |ks| ==> ks[j] != "ID" && ks[j] !in ParentKeys
    ensures forall j :: h <= j < |names| ==> names[j] != "ID" && names[j] !in ParentKeys
  {
    forall j | h <= j < |names|
      ensures names[j] != "ID" && names[j] !in ParentKeys
    {
      assert names[j] == names[h..][j - h];
    }
  }




}
