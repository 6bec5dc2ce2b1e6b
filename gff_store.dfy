/** Turning one parse context into store entries (`_storeOneAnnotation`): interning
    the gene, the parent and the record itself, storing its attributes, writing its
    entry, linking orphan parents to the root and, for GTF lines, forcing the
    gene -> transcript -> feature chain and widening the ancestors' spans. */
module GffStore {
  import opened Annotations
  import opened SpanMerge
  import opened GffRead

  // ---------------------------------------------------------------------------
  // The attribute filter

  /** Whether a kept pair is stored on the record's own entry: `gene_name` only on a
      gene, `transcript_name` only on a transcript, and never the key that linked
      the parent nor `gene_id`. */
  predicate IsStored(key: string, typeId: Link, parentKey: string) {
    && !(key == "gene_name" && typeId != Id(AnnoGene))
    && !(key == "transcript_name" && typeId != Id(AnnoMrna))
    && key != parentKey
    && key != "gene_id"
  }

  /** The attribute loop over the first `n` kept pairs: every pair that passes the
      filter is assigned to `a` by key. */
  function StoreAttributes(keyNames: seq<string>, a: Annotation, keys: seq<string>, vals: seq<string>,
                           typeId: Link, parentKey: string, n: nat): (r: (seq<string>, Annotation))
    requires n <= |keys| && n <= |vals|
    ensures keyNames <= r.0
    ensures r.1 == a.(values := r.1.values)
    ensures |a.values| <= |keyNames| ==> |r.1.values| <= |r.0|
    decreases n
  {
    if n == 0 then (keyNames, a)
    else
      var (ks, b) := StoreAttributes(keyNames, a, keys, vals, typeId, parentKey, n - 1);
      if IsStored(keys[n - 1], typeId, parentKey) then AssignValueByKey(ks, b, keys[n - 1], vals[n - 1])
      else (ks, b)
  }

  /** A key the filter rejects reads afterwards exactly as before: link keys,
      `gene_id`, and the names that do not fit the entry's type are never stored. */
  lemma {:induction false} StoreAttributesSkips(keyNames: seq<string>, a: Annotation, keys: seq<string>,
                                                vals: seq<string>, typeId: Link, parentKey: string, n: nat, key: string)
    requires n <= |keys| && n <= |vals|
    requires !IsStored(key, typeId, parentKey)
    ensures var (ks, b) := StoreAttributes(keyNames, a, keys, vals, typeId, parentKey, n);
            GetValueByKey(ks, b, key) == GetValueByKey(keyNames, a, key)
  {
    if n > 0 {
      StoreAttributesSkips(keyNames, a, keys, vals, typeId, parentKey, n - 1, key);
      var (ks, b) := StoreAttributes(keyNames, a, keys, vals, typeId, parentKey, n - 1);
      if IsStored(keys[n - 1], typeId, parentKey) {
        GetAfterAssign(ks, b, keys[n - 1], vals[n - 1], key);
      }
    }
  }

  /** A key the filter accepts reads afterwards as the value of its last pair (or
      as before, when no pair has that key). */
  lemma {:induction false} StoreAttributesLast(keyNames: seq<string>, a: Annotation, keys: seq<string>,
                                               vals: seq<string>, typeId: Link, parentKey: string, n: nat, key: string)
    requires n <= |keys| && n <= |vals|
    requires IsStored(key, typeId, parentKey)
    ensures var (ks, b) := StoreAttributes(keyNames, a, keys, vals, typeId, parentKey, n);
            GetValueByKey(ks, b, key) ==
              match LastIndex(keys, n, {key})
              case None => GetValueByKey(keyNames, a, key)
              case Some(i) => if vals[i] == "" then None else Some(vals[i])
  {
    if n > 0 {
      StoreAttributesLast(keyNames, a, keys, vals, typeId, parentKey, n - 1, key);
      var (ks, b) := StoreAttributes(keyNames, a, keys, vals, typeId, parentKey, n - 1);
      if IsStored(keys[n - 1], typeId, parentKey) {
        GetAfterAssign(ks, b, keys[n - 1], vals[n - 1], key);
      }
    }
  }

  // ---------------------------------------------------------------------------
  // The stages of storing one record

  /** The ids and the entry the interning stage produces. `maxId` is the largest id
      touched: the gene, the parent (when named) and the record itself. */
  datatype Interned = Interned(tables: Tables, geneId: Link, selfId: nat, annotation: Annotation, maxId: nat)

  /** Interns the gene named by `gene_id`, typed as a gene, and the parent named by
      the link tag, typed as a transcript when the link is `transcript_id`. Returns
      the gene id (unset without `gene_id`), the parent id (the root without a
      parent name) and the largest of them. */
  function InternAncestors(s: Tables, t: TagState): (r: (Tables, Link, nat, nat))
    requires WellFormed(s)
    ensures 1 <= |r.0.annotations| == |r.0.annotationNames|
    ensures (r.1.Id? ==> r.1.id <= r.3) && r.2 <= r.3 && r.3 < |r.0.annotations|
    ensures r.0.keyNames == s.keyNames && r.0.contigNames == s.contigNames && r.0.typeNames == s.typeNames
    ensures s.annotationNames <= r.0.annotationNames && s.annotations <= r.0.annotations
    ensures forall i :: |s.annotations| <= i < |r.0.annotations| ==>
              && r.0.annotations[i].parentId == NoId && r.0.annotations[i].values == []
              && (Id(i) == r.1 || i == r.2)
    ensures t.gtfGeneId == "" <==> r.1 == NoId
    ensures r.1.Id? ==> r.0.annotationNames[r.1.id] == t.gtfGeneId
    ensures t.parentName == "" ==> r.2 == 0
    ensures t.parentName != "" ==> r.0.annotationNames[r.2] == t.parentName
  {
    var (s1, geneId, max1) :=
      if t.gtfGeneId != "" then
        var (u, g) := AppendAnnotationName(s, t.gtfGeneId, Some(AnnoGene));
        (u, Id(g), g)
      else (s, NoId, 0);
    if t.parentName != "" then
      var (u, p) := AppendAnnotationName(s1, t.parentName, if t.parentKey == "transcript_id" then Some(AnnoMrna) else None);
      (u, geneId, p, Max(max1, p))
    else (s1, geneId, 0, max1)
  }

  /** The entries `InternAncestors` creates are default entries: a new gene typed as
      a gene, a new parent typed as a transcript when linked by `transcript_id` and
      untyped otherwise. */
  lemma InternAncestorsNewEntries(s: Tables, t: TagState)
    requires WellFormed(s)
    ensures var r := InternAncestors(s, t);
            forall i :: |s.annotations| <= i < |r.0.annotations| ==>
              && r.0.annotations[i] == Unset.(typeId := r.0.annotations[i].typeId)
              && (Id(i) == r.1 ==> r.0.annotations[i].typeId == Id(AnnoGene))
              && (Id(i) != r.1 ==> r.0.annotations[i].typeId == if t.parentKey == "transcript_id" then Id(AnnoMrna) else NoId)
  {
    if t.gtfGeneId != "" {
      var (u, g) := AppendAnnotationName(s, t.gtfGeneId, Some(AnnoGene));
      if t.parentName != "" {
        var (u2, p) := AppendAnnotationName(u, t.parentName, if t.parentKey == "transcript_id" then Some(AnnoMrna) else None);
        forall i | |s.annotations| <= i < |u.annotations| ensures u2.annotations[i] == u.annotations[i] { }
      }
    }
  }

  /** Interns the gene, the parent, the contig, the type and the record's own name,
      and fills in the entry's parent, contig and type ids. */
  function InternNames(s: Tables, c: ParseContext): (r: Interned)
    requires WellFormed(s)
    ensures 1 <= |r.tables.annotations| == |r.tables.annotationNames|
    ensures r.maxId < |r.tables.annotations|
    ensures r.geneId.Id? ==> r.geneId.id <= r.maxId
    ensures r.annotation.parentId.Id? && r.annotation.parentId.id <= r.maxId && r.selfId <= r.maxId
    ensures r.annotation.typeId.Id? && r.annotation.contigId.Id?
    ensures r.annotation == c.annotation.(parentId := r.annotation.parentId,
                                          contigId := r.annotation.contigId,
                                          typeId := r.annotation.typeId)
    ensures r.tables.keyNames == s.keyNames
    ensures s.annotationNames <= r.tables.annotationNames && s.annotations <= r.tables.annotations
    ensures s.contigNames <= r.tables.contigNames && s.typeNames <= r.tables.typeNames
    ensures forall i :: |s.annotations| <= i < |r.tables.annotations| ==>
              && r.tables.annotations[i].parentId == NoId && r.tables.annotations[i].values == []
              && (Id(i) == r.geneId || Id(i) == r.annotation.parentId || i == r.selfId)
    ensures c.tags.gtfGeneId == "" <==> r.geneId == NoId
    ensures r.geneId.Id? ==> r.tables.annotationNames[r.geneId.id] == c.tags.gtfGeneId
    ensures c.tags.parentName == "" ==> r.annotation.parentId == Id(0)
    ensures c.tags.parentName != "" ==> r.tables.annotationNames[r.annotation.parentId.id] == c.tags.parentName
    ensures r.tables.annotationNames[r.selfId] == c.tags.annotationName
    ensures r.annotation.contigId.id < |r.tables.contigNames| && r.annotation.typeId.id < |r.tables.typeNames|
    ensures r.tables.contigNames[r.annotation.contigId.id] == c.contigName
    ensures r.tables.typeNames[r.annotation.typeId.id] == c.typeName
  {
    var (s2, geneId, parentId, max2) := InternAncestors(s, c.tags);
    var (contigs, contigId) := Intern(s2.contigNames, c.contigName);
    var (types, typeId) := Intern(s2.typeNames, c.typeName);
    var (s3, selfId) := AppendAnnotationName(s2.(contigNames := contigs, typeNames := types), c.tags.annotationName, Some(typeId));
    var a := c.annotation.(parentId := Id(parentId), contigId := Id(contigId), typeId := Id(typeId));
    Interned(s3, geneId, selfId, a, Max(max2, selfId))
  }

  /** Grows the table to `n` entries with default entries, if it is shorter. */
  function Grow(rows: seq<Annotation>, n: nat): (r: seq<Annotation>)
    ensures rows <= r && |r| == if |rows| < n then n else |rows|
    ensures forall i :: |rows| <= i < |r| ==> r[i] == Unset
  {
    if |rows| < n then rows + seq(n - |rows|, _ => Unset) else rows
  }

  /** Grows the table to cover `maxId`, writes the record's entry, and links a
      parent that has no parent of its own to the root. */
  function PlaceRecord(rows: seq<Annotation>, maxId: nat, selfId: nat, a: Annotation): (r: seq<Annotation>)
    requires selfId <= maxId && a.parentId.Id? && a.parentId.id <= maxId
  {
    var rows0 := Grow(rows, maxId + 1);
    var rows1 := rows0[selfId := a];
    var p := a.parentId.id;
    if p != 0 && rows1[p].parentId == NoId then rows1[p := rows1[p].(parentId := Id(0))] else rows1
  }

  /** For a GTF line: the gene becomes a child of the root typed as a gene, the
      parent a child of the gene typed as a transcript; both spans are widened by
      the child's, and the gene and transcript names are attached. */
  function LinkGtfAncestors(rows: seq<Annotation>, keyNames: seq<string>, g: nat, p: nat, child: Annotation,
                            geneName: string, transcriptName: string): (r: (seq<Annotation>, seq<string>))
    requires g < |rows| && p < |rows|
    ensures |r.0| == |rows| && keyNames <= r.1
  {
    var gene0 := rows[g].(parentId := Id(0), typeId := Id(AnnoGene));
    var gene1 := AdjustParent(gene0, child);
    var (keys1, gene2) := if geneName != "" then AssignValueByKey(keyNames, gene1, "gene_name", geneName) else (keyNames, gene1);
    var rows1 := rows[g := gene2];
    var parent0 := rows1[p].(parentId := Id(g), typeId := Id(AnnoMrna));
    var parent1 := AdjustParent(parent0, child);
    var (keys2, parent2) :=
      if transcriptName != "" then AssignValueByKey(keys1, parent1, "transcript_name", transcriptName) else (keys1, parent1);
    (rows1[p := parent2], keys2)
  }

  /** The store after one record, the record's id and the entry written for it. */
  datatype StoreResult = StoreResult(tables: Tables, annotationId: nat, annotation: Annotation, geneId: Link)

  /** The interning stage yields ids the rest of the store step can use. */
  predicate Placeable(n: Interned) {
    && n.maxId < |n.tables.annotations|
    && n.selfId <= n.maxId
    && n.annotation.parentId.Id? && n.annotation.parentId.id <= n.maxId
    && (n.geneId.Id? ==> n.geneId.id <= n.maxId)
  }

  /** Interning has already appended every entry the record names, so the resize in
      `PlaceRecord` adds nothing after it. */
  lemma PlaceableNoGrow(n: Interned)
    requires Placeable(n)
    ensures Grow(n.tables.annotations, n.maxId + 1) == n.tables.annotations
  {
  }

  /** The rest of the store step after interning: the attribute loop, writing the
      entry, and linking the GTF ancestors. */
  function Complete(n: Interned, c: ParseContext): (r: StoreResult)
    requires Placeable(n) && |c.tags.keys| <= |c.tags.values|
    ensures r.annotationId == n.selfId && r.geneId == n.geneId
    ensures |r.tables.annotations| == |n.tables.annotations| && r.tables.annotationNames == n.tables.annotationNames
  {
    var a0 := n.annotation;
    var (keys, a) := StoreAttributes(n.tables.keyNames, a0, c.tags.keys, c.tags.values, a0.typeId, c.tags.parentKey, |c.tags.keys|);
    var rows := PlaceRecord(n.tables.annotations, n.maxId, n.selfId, a);
    var (rows', keys') :=
      if n.geneId.Id? then LinkGtfAncestors(rows, keys, n.geneId.id, a.parentId.id, a, c.tags.gtfGeneName, c.tags.gtfTranscriptName)
      else (rows, keys);
    StoreResult(n.tables.(annotations := rows', keyNames := keys'), n.selfId, a, n.geneId)
  }

  /** Stores one parse context. */
  function StoreOne(s: Tables, c: ParseContext): (r: StoreResult)
    requires WellFormed(s) && |c.tags.keys| <= |c.tags.values|
  {
    Complete(InternNames(s, c), c)
  }

  // ---------------------------------------------------------------------------
  // The store invariant is preserved

  /** Every entry but the root, and but `ex`, is linked to an existing parent. */
  predicate LinkedExcept(rows: seq<Annotation>, ex: Link) {
    forall i :: 0 < i < |rows| && Id(i) != ex ==> InRange(rows[i].parentId, |rows|)
  }

  /** Every entry's values are backed by interned keys. */
  predicate ValuesBacked(rows: seq<Annotation>, keyNames: seq<string>) {
    forall i :: 0 <= i < |rows| ==> |rows[i].values| <= |keyNames|
  }

  /** After the record's entry is written and its parent linked, only a newly
      created gene may still lack a parent. */
  lemma PlaceRecordLinks(rows: seq<Annotation>, oldLen: nat, maxId: nat, selfId: nat, a: Annotation, g: Link)
    requires 1 <= oldLen <= |rows| && maxId < |rows|
    requires selfId <= maxId && a.parentId.Id? && a.parentId.id <= maxId
    requires forall i :: 0 < i < oldLen ==> InRange(rows[i].parentId, |rows|)
    requires forall i :: oldLen <= i < |rows| ==>
               rows[i].parentId == NoId && (Id(i) == g || Id(i) == a.parentId || i == selfId)
    ensures var r := PlaceRecord(rows, maxId, selfId, a);
            |r| == |rows| && LinkedExcept(r, g)
  {
  }

  /** Writing the record's entry keeps every value slot backed by a key. */
  lemma PlaceRecordBacked(rows: seq<Annotation>, keyNames: seq<string>, maxId: nat, selfId: nat, a: Annotation)
    requires maxId < |rows| && selfId <= maxId && a.parentId.Id? && a.parentId.id <= maxId
    requires ValuesBacked(rows, keyNames) && |a.values| <= |keyNames|
    ensures ValuesBacked(PlaceRecord(rows, maxId, selfId, a), keyNames)
  {
  }

  /** Linking the GTF ancestors links the gene, so every entry but the root is
      linked afterwards; the value slots stay backed by keys. */
  lemma LinkGtfAncestorsLinks(rows: seq<Annotation>, keyNames: seq<string>, g: nat, p: nat, child: Annotation,
                              geneName: string, transcriptName: string)
    requires g < |rows| && p < |rows|
    requires LinkedExcept(rows, Id(g)) && ValuesBacked(rows, keyNames)
    ensures var (r, ks) := LinkGtfAncestors(rows, keyNames, g, p, child, geneName, transcriptName);
            LinkedExcept(r, NoId) && ValuesBacked(r, ks)
  {
  }

  /** The interning stage leaves the old entries linked and every slot backed. */
  lemma InternNamesInvariant(s: Tables, c: ParseContext)
    requires WellFormed(s)
    ensures var n := InternNames(s, c);
            && (forall i :: 0 < i < |s.annotations| ==> InRange(n.tables.annotations[i].parentId, |n.tables.annotations|))
            && ValuesBacked(n.tables.annotations, s.keyNames)
            && (forall i :: |s.annotations| <= i < |n.tables.annotations| ==>
                  n.tables.annotations[i] == Unset.(typeId := n.tables.annotations[i].typeId))
  {
    var n := InternNames(s, c);
    InternNamesNewEntries(s, c);
    forall i | 0 <= i < |n.tables.annotations|
      ensures |n.tables.annotations[i].values| <= |s.keyNames|
    {
      if i < |s.annotations| {
        assert n.tables.annotations[i] == s.annotations[i];
      }
    }
    forall i | 0 < i < |s.annotations|
      ensures InRange(n.tables.annotations[i].parentId, |n.tables.annotations|)
    {
      assert n.tables.annotations[i] == s.annotations[i];
    }
  }

  /** The entries the interning stage creates are default entries typed by their
      role: a new gene as a gene, a new parent as a transcript when linked by
      `transcript_id` and untyped otherwise, and a new entry for the record itself
      with the record's type. */
  lemma InternNamesNewEntries(s: Tables, c: ParseContext)
    requires WellFormed(s)
    ensures var n := InternNames(s, c);
            var rows := n.tables.annotations;
            forall i :: |s.annotations| <= i < |rows| ==>
              && rows[i] == Unset.(typeId := rows[i].typeId)
              && (Id(i) == n.geneId ==> rows[i].typeId == Id(AnnoGene))
              && (Id(i) != n.geneId && Id(i) == n.annotation.parentId ==>
                    rows[i].typeId == if c.tags.parentKey == "transcript_id" then Id(AnnoMrna) else NoId)
              && (Id(i) != n.geneId && Id(i) != n.annotation.parentId ==>
                    i == n.selfId && rows[i].typeId == n.annotation.typeId)
  {
    InternAncestorsNewEntries(s, c.tags);
    var (s2, geneId, parentId, max2) := InternAncestors(s, c.tags);
    var (contigs, contigId) := Intern(s2.contigNames, c.contigName);
    var (types, typeId) := Intern(s2.typeNames, c.typeName);
    var s2' := s2.(contigNames := contigs, typeNames := types);
    var (s3, selfId) := AppendAnnotationName(s2', c.tags.annotationName, Some(typeId));
    var n := InternNames(s, c);
    assert n.tables == s3 && n.geneId == geneId && n.selfId == selfId;
    assert n.annotation.parentId == Id(parentId) && n.annotation.typeId == Id(typeId);
    forall i | |s.annotations| <= i < |s3.annotations|
      ensures && s3.annotations[i] == Unset.(typeId := s3.annotations[i].typeId)
              && (Id(i) == geneId ==> s3.annotations[i].typeId == Id(AnnoGene))
              && (Id(i) != geneId && i == parentId ==>
                    s3.annotations[i].typeId == if c.tags.parentKey == "transcript_id" then Id(AnnoMrna) else NoId)
              && (Id(i) != geneId && i != parentId ==> i == selfId && s3.annotations[i].typeId == Id(typeId))
    {
      if i < |s2.annotations| {
        assert s3.annotations[i] == s2.annotations[i];
      }
    }
  }

  /** Writing the record's entry: the entry lands at its id, a parent other than
      the root that had no parent is linked to the root, and nothing else changes. */
  lemma PlaceRecordEntries(rows: seq<Annotation>, maxId: nat, selfId: nat, a: Annotation)
    requires maxId < |rows| && selfId <= maxId && a.parentId.Id? && a.parentId.id <= maxId
    ensures var r := PlaceRecord(rows, maxId, selfId, a);
            var p := a.parentId.id;
            && |r| == |rows| && r[selfId] == a
            && (p != 0 ==> r[p].parentId.Id?)
            && (p != selfId ==>
                  r[p] == rows[p].(parentId := if p != 0 && rows[p].parentId == NoId then Id(0) else rows[p].parentId))
            && (forall i :: 0 <= i < |r| && i != selfId && i != p ==> r[i] == rows[i])
  {
  }

  /** Linking the GTF ancestors of a line whose gene and transcript differ: the gene
      becomes a root child typed as a gene, the transcript a child of the gene typed
      as a transcript, both widened by the child, both names readable afterwards,
      and nothing else changes. */
  lemma LinkGtfEntries(rows: seq<Annotation>, keyNames: seq<string>, g: nat, p: nat, child: Annotation,
                       geneName: string, transcriptName: string)
    requires g < |rows| && p < |rows| && g != p && ValuesBacked(rows, keyNames)
    ensures var (r, ks) := LinkGtfAncestors(rows, keyNames, g, p, child, geneName, transcriptName);
            && |r| == |rows| && keyNames <= ks
            && r[g] == AdjustParent(rows[g].(parentId := Id(0), typeId := Id(AnnoGene)), child).(values := r[g].values)
            && r[p] == AdjustParent(rows[p].(parentId := Id(g), typeId := Id(AnnoMrna)), child).(values := r[p].values)
            && (geneName != "" ==> GetValueByKey(ks, r[g], "gene_name") == Some(geneName))
            && (transcriptName != "" ==> GetValueByKey(ks, r[p], "transcript_name") == Some(transcriptName))
            && (forall i :: 0 <= i < |r| && i != g && i != p ==> r[i] == rows[i])
  {
    var gene1 := AdjustParent(rows[g].(parentId := Id(0), typeId := Id(AnnoGene)), child);
    var (keys1, gene2) := if geneName != "" then AssignValueByKey(keyNames, gene1, "gene_name", geneName) else (keyNames, gene1);
    if geneName != "" {
      GetAfterAssign(keyNames, gene1, "gene_name", geneName, "gene_name");
    }
    var rows1 := rows[g := gene2];
    var parent1 := AdjustParent(rows1[p].(parentId := Id(g), typeId := Id(AnnoMrna)), child);
    var (keys2, parent2) :=
      if transcriptName != "" then AssignValueByKey(keys1, parent1, "transcript_name", transcriptName) else (keys1, parent1);
    if transcriptName != "" {
      GetAfterAssign(keys1, parent1, "transcript_name", transcriptName, "transcript_name");
    }
    GetValueByKeyExtend(keys1, keys2, gene2, "gene_name");
  }

  /** The completion stage turns an interned table whose old entries are linked and
      whose new entries are the ones just interned into a well-formed table. */
  lemma CompleteWellFormed(n: Interned, c: ParseContext, oldLen: nat)
    requires Placeable(n) && |c.tags.keys| <= |c.tags.values|
    requires 1 <= oldLen <= |n.tables.annotations| == |n.tables.annotationNames|
    requires forall i :: 0 < i < oldLen ==> InRange(n.tables.annotations[i].parentId, |n.tables.annotations|)
    requires forall i :: oldLen <= i < |n.tables.annotations| ==>
               && n.tables.annotations[i].parentId == NoId
               && (Id(i) == n.geneId || Id(i) == n.annotation.parentId || i == n.selfId)
    requires ValuesBacked(n.tables.annotations, n.tables.keyNames)
    requires |n.annotation.values| <= |n.tables.keyNames|
    ensures WellFormed(Complete(n, c).tables)
  {
    var a0 := n.annotation;
    var (keys, a) := StoreAttributes(n.tables.keyNames, a0, c.tags.keys, c.tags.values, a0.typeId, c.tags.parentKey, |c.tags.keys|);
    assert a.parentId == a0.parentId && |a.values| <= |keys|;
    var rows0 := n.tables.annotations;
    PlaceRecordLinks(rows0, oldLen, n.maxId, n.selfId, a, n.geneId);
    assert ValuesBacked(rows0, keys);
    PlaceRecordBacked(rows0, keys, n.maxId, n.selfId, a);
    var rows := PlaceRecord(rows0, n.maxId, n.selfId, a);
    var (rows', keys') :=
      if n.geneId.Id? then LinkGtfAncestors(rows, keys, n.geneId.id, a.parentId.id, a, c.tags.gtfGeneName, c.tags.gtfTranscriptName)
      else (rows, keys);
    if n.geneId.Id? {
      LinkGtfAncestorsLinks(rows, keys, n.geneId.id, a.parentId.id, a, c.tags.gtfGeneName, c.tags.gtfTranscriptName);
    }
    assert LinkedExcept(rows', NoId) && ValuesBacked(rows', keys') && |rows'| == |n.tables.annotationNames|;
    assert Complete(n, c).tables == n.tables.(annotations := rows', keyNames := keys');
  }

  /** Storing a record keeps the store well formed. */
  lemma StoreOneWellFormed(s: Tables, c: ParseContext)
    requires WellFormed(s) && |c.tags.keys| <= |c.tags.values| && |c.annotation.values| <= |s.keyNames|
    ensures WellFormed(StoreOne(s, c).tables)
  {
    InternNamesInvariant(s, c);
    CompleteWellFormed(InternNames(s, c), c, |s.annotations|);
  }

  // ---------------------------------------------------------------------------
  // What one record does to the store

  /** A GFF line (no `gene_id`): the record's entry is written at the id of its
      name with the interned contig and type and the read bounds; it hangs below
      the entry its link names, or below the root without one; a parent other than
      the root is linked afterwards; every other existing entry is unchanged. */
  lemma StoreOneGffLine(s: Tables, c: ParseContext)
    requires WellFormed(s) && |c.tags.keys| <= |c.tags.values| && c.tags.gtfGeneId == ""
    ensures var r := StoreOne(s, c);
            var rows := r.tables.annotations;
            var a := r.annotation;
            && r.geneId == NoId
            && r.annotationId < |rows| && rows[r.annotationId] == a
            && r.tables.annotationNames[r.annotationId] == c.tags.annotationName
            && a.beginPos == c.annotation.beginPos && a.endPos == c.annotation.endPos
            && a.lastChildId == c.annotation.lastChildId
            && a.contigId.Id? && a.contigId.id < |r.tables.contigNames|
            && r.tables.contigNames[a.contigId.id] == c.contigName
            && a.typeId.Id? && a.typeId.id < |r.tables.typeNames|
            && r.tables.typeNames[a.typeId.id] == c.typeName
            && a.parentId.Id? && a.parentId.id < |rows|
            && (c.tags.parentName == "" ==> a.parentId == Id(0))
            && (c.tags.parentName != "" ==> r.tables.annotationNames[a.parentId.id] == c.tags.parentName)
            && (a.parentId.id != 0 ==> rows[a.parentId.id].parentId.Id?)
            && (var p := a.parentId.id;
                && (p != r.annotationId && p < |s.annotations| ==>
                      rows[p] == s.annotations[p].(parentId := if p != 0 && s.annotations[p].parentId == NoId
                                                               then Id(0) else s.annotations[p].parentId))
                && (p != r.annotationId && p >= |s.annotations| ==>
                      rows[p] == Unset.(typeId := if c.tags.parentKey == "transcript_id" then Id(AnnoMrna) else NoId,
                                        parentId := Id(0))))
            && (forall i :: 0 <= i < |s.annotations| && i != r.annotationId && Id(i) != a.parentId ==>
                  rows[i] == s.annotations[i])
  {
    InternNamesNewEntries(s, c);
    var n := InternNames(s, c);
    var a0 := n.annotation;
    var (keys, a) := StoreAttributes(n.tables.keyNames, a0, c.tags.keys, c.tags.values, a0.typeId, c.tags.parentKey, |c.tags.keys|);
    PlaceRecordEntries(n.tables.annotations, n.maxId, n.selfId, a);
    var rows := PlaceRecord(n.tables.annotations, n.maxId, n.selfId, a);
    assert StoreOne(s, c) == StoreResult(n.tables.(annotations := rows, keyNames := keys), n.selfId, a, NoId);
    forall i | 0 <= i < |s.annotations| && i != n.selfId && Id(i) != a.parentId
      ensures rows[i] == s.annotations[i]
    {
      assert n.tables.annotations[i] == s.annotations[i];
    }
    var p := a.parentId.id;
    if p < |s.annotations| {
      assert n.tables.annotations[p] == s.annotations[p];
    }
  }

  /** The completion stage for a GTF line whose gene, transcript and record ids are
      distinct and are not the root. */
  lemma CompleteGtf(n: Interned, c: ParseContext)
    requires Placeable(n) && |c.tags.keys| <= |c.tags.values|
    requires ValuesBacked(n.tables.annotations, n.tables.keyNames) && |n.annotation.values| <= |n.tables.keyNames|
    requires n.geneId.Id? && var g := n.geneId.id; var p := n.annotation.parentId.id;
             g != p && g != 0 && p != 0 && n.selfId != g && n.selfId != p
    ensures var r := Complete(n, c);
            var rows := r.tables.annotations;
            var a := r.annotation;
            var g := n.geneId.id;
            var p := a.parentId.id;
            && |rows| == |n.tables.annotations| && r.annotationId == n.selfId && r.geneId == n.geneId
            && a.parentId == n.annotation.parentId
            && rows[n.selfId] == a
            && rows[g].parentId == Id(0) && rows[g].typeId == Id(AnnoGene)
            && rows[p].parentId == Id(g) && rows[p].typeId == Id(AnnoMrna)
            && (Mergeable(a) ==> rows[g].contigId == a.contigId && rows[p].contigId == a.contigId)
            && (Mergeable(a) && Spanned(rows[g]) ==> Lo(rows[g]) <= Lo(a) && Hi(a) <= Hi(rows[g]))
            && (Mergeable(a) && Spanned(rows[p]) ==> Lo(rows[p]) <= Lo(a) && Hi(a) <= Hi(rows[p]))
            && (c.tags.gtfGeneName != "" ==>
                  GetValueByKey(r.tables.keyNames, rows[g], "gene_name") == Some(c.tags.gtfGeneName))
            && (c.tags.gtfTranscriptName != "" ==>
                  GetValueByKey(r.tables.keyNames, rows[p], "transcript_name") == Some(c.tags.gtfTranscriptName))
            && (forall i :: 0 <= i < |rows| && i != n.selfId && i != g && i != p ==> rows[i] == n.tables.annotations[i])
  {
    var g := n.geneId.id;
    var a0 := n.annotation;
    var p := a0.parentId.id;
    var (keys, a) := StoreAttributes(n.tables.keyNames, a0, c.tags.keys, c.tags.values, a0.typeId, c.tags.parentKey, |c.tags.keys|);
    PlaceRecordEntries(n.tables.annotations, n.maxId, n.selfId, a);
    assert ValuesBacked(n.tables.annotations, keys);
    PlaceRecordBacked(n.tables.annotations, keys, n.maxId, n.selfId, a);
    var rows := PlaceRecord(n.tables.annotations, n.maxId, n.selfId, a);
    LinkGtfEntries(rows, keys, g, p, a, c.tags.gtfGeneName, c.tags.gtfTranscriptName);
    var (rows', keys') := LinkGtfAncestors(rows, keys, g, p, a, c.tags.gtfGeneName, c.tags.gtfTranscriptName);
    assert Complete(n, c) == StoreResult(n.tables.(annotations := rows', keyNames := keys'), n.selfId, a, n.geneId);
    if Mergeable(a) {
      var gene0 := rows[g].(parentId := Id(0), typeId := Id(AnnoGene));
      var tr0 := rows[p].(parentId := Id(g), typeId := Id(AnnoMrna));
      if Spanned(gene0) { AdjustParentCovers(gene0, a); }
      if Spanned(tr0) { AdjustParentCovers(tr0, a); }
    }
  }

  /** A GTF line whose gene, transcript and own name are distinct, none of them the
      root's: the gene hangs below the root typed as a gene, the transcript below
      the gene typed as a transcript, the record below the transcript; both
      ancestors take the record's contig and cover its span, carry the gene and
      transcript names, and every other existing entry is unchanged. */
  lemma StoreOneGtfLine(s: Tables, c: ParseContext)
    requires WellFormed(s) && |c.tags.keys| <= |c.tags.values| && |c.annotation.values| <= |s.keyNames|
    requires c.tags.gtfGeneId != "" && c.tags.parentName != "" && c.tags.gtfGeneId != c.tags.parentName
    requires c.tags.gtfGeneId != s.annotationNames[0] && c.tags.parentName != s.annotationNames[0]
    requires c.tags.annotationName != c.tags.gtfGeneId && c.tags.annotationName != c.tags.parentName
    ensures var r := StoreOne(s, c);
            var rows := r.tables.annotations;
            var a := r.annotation;
            && r.geneId.Id? && r.geneId.id < |rows| && a.parentId.Id? && a.parentId.id < |rows|
            && r.annotationId < |rows|
            && var g := r.geneId.id;
               var p := a.parentId.id;
               && r.tables.annotationNames[g] == c.tags.gtfGeneId
               && r.tables.annotationNames[p] == c.tags.parentName
               && rows[r.annotationId] == a
               && rows[g].parentId == Id(0) && rows[g].typeId == Id(AnnoGene)
               && rows[p].parentId == Id(g) && rows[p].typeId == Id(AnnoMrna)
               && (Mergeable(a) ==> rows[g].contigId == a.contigId && rows[p].contigId == a.contigId)
               && (Mergeable(a) && Spanned(rows[g]) ==> Lo(rows[g]) <= Lo(a) && Hi(a) <= Hi(rows[g]))
               && (Mergeable(a) && Spanned(rows[p]) ==> Lo(rows[p]) <= Lo(a) && Hi(a) <= Hi(rows[p]))
               && (c.tags.gtfGeneName != "" ==>
                     GetValueByKey(r.tables.keyNames, rows[g], "gene_name") == Some(c.tags.gtfGeneName))
               && (c.tags.gtfTranscriptName != "" ==>
                     GetValueByKey(r.tables.keyNames, rows[p], "transcript_name") == Some(c.tags.gtfTranscriptName))
               && (forall i :: 0 <= i < |s.annotations| && i != r.annotationId && i != g && i != p ==>
                     rows[i] == s.annotations[i])
  {
    var n := InternNames(s, c);
    InternNamesInvariant(s, c);
    assert n.tables.annotationNames[0] == s.annotationNames[0];
    CompleteGtf(n, c);
    var r := Complete(n, c);
    forall i | 0 <= i < |s.annotations| && i != n.selfId && i != n.geneId.id && i != n.annotation.parentId.id
      ensures r.tables.annotations[i] == s.annotations[i]
    {
      assert n.tables.annotations[i] == s.annotations[i];
    }
  }

  /** A GTF line with `gene_id` but without a link tag hangs below the root, and the
      gene linking then treats the root as the transcript: the root becomes a child
      of the gene, typed as a transcript. */
  lemma GeneWithoutTranscriptRelinksRoot(s: Tables, c: ParseContext)
    requires WellFormed(s) && |c.tags.keys| <= |c.tags.values| && |c.annotation.values| <= |s.keyNames|
    requires c.tags.gtfGeneId != "" && c.tags.parentName == "" && c.tags.gtfGeneId != s.annotationNames[0]
    ensures var r := StoreOne(s, c);
            && r.annotation.parentId == Id(0) && r.geneId.Id? && r.geneId.id != 0
            && r.tables.annotations[0].parentId == r.geneId
            && r.tables.annotations[0].typeId == Id(AnnoMrna)
  {
    var n := InternNames(s, c);
    InternNamesInvariant(s, c);
    var g := n.geneId.id;
    var a0 := n.annotation;
    assert n.tables.annotationNames[0] == s.annotationNames[0];
    var (keys, a) := StoreAttributes(n.tables.keyNames, a0, c.tags.keys, c.tags.values, a0.typeId, c.tags.parentKey, |c.tags.keys|);
    assert ValuesBacked(n.tables.annotations, keys);
    PlaceRecordBacked(n.tables.annotations, keys, n.maxId, n.selfId, a);
    var rows := PlaceRecord(n.tables.annotations, n.maxId, n.selfId, a);
    LinkGtfEntries(rows, keys, g, 0, a, c.tags.gtfGeneName, c.tags.gtfTranscriptName);
    var (rows', keys') := LinkGtfAncestors(rows, keys, g, 0, a, c.tags.gtfGeneName, c.tags.gtfTranscriptName);
    assert StoreOne(s, c) == StoreResult(n.tables.(annotations := rows', keyNames := keys'), n.selfId, a, n.geneId);
  }

  /** A gene and a transcript with the same name are interned to the same id. */
  lemma InternAncestorsSameName(s: Tables, t: TagState)
    requires WellFormed(s) && t.gtfGeneId != "" && t.parentName == t.gtfGeneId
    ensures var r := InternAncestors(s, t);
            r.1 == Id(r.2)
  {
    AppendAnnotationNameStable(s, t.gtfGeneId, Some(AnnoGene), if t.parentKey == "transcript_id" then Some(AnnoMrna) else None);
  }

  /** Linking an entry as both the gene and the transcript of a line makes it its
      own parent, typed as a transcript. */
  lemma LinkGtfAncestorsSelf(rows: seq<Annotation>, keyNames: seq<string>, g: nat, child: Annotation,
                             geneName: string, transcriptName: string)
    requires g < |rows|
    ensures var (r, ks) := LinkGtfAncestors(rows, keyNames, g, g, child, geneName, transcriptName);
            r[g].parentId == Id(g) && r[g].typeId == Id(AnnoMrna)
  {
  }

  /** A GTF line whose gene and transcript share a name: both are one entry, which
      the linking makes its own parent, typed as a transcript. */
  lemma SameNameGeneTranscriptCollapse(s: Tables, c: ParseContext)
    requires WellFormed(s) && |c.tags.keys| <= |c.tags.values|
    requires c.tags.gtfGeneId != "" && c.tags.parentName == c.tags.gtfGeneId
    ensures var r := StoreOne(s, c);
            && r.geneId.Id? && r.annotation.parentId == r.geneId && r.geneId.id < |r.tables.annotations|
            && r.tables.annotations[r.geneId.id].parentId == r.geneId
            && r.tables.annotations[r.geneId.id].typeId == Id(AnnoMrna)
  {
    InternAncestorsSameName(s, c.tags);
    var n := InternNames(s, c);
    assert n.geneId == n.annotation.parentId;
    var a0 := n.annotation;
    var (keys, a) := StoreAttributes(n.tables.keyNames, a0, c.tags.keys, c.tags.values, a0.typeId, c.tags.parentKey, |c.tags.keys|);
    var rows := PlaceRecord(n.tables.annotations, n.maxId, n.selfId, a);
    LinkGtfAncestorsSelf(rows, keys, n.geneId.id, a, c.tags.gtfGeneName, c.tags.gtfTranscriptName);
  }

  /** After reading (no values yet), the entry written for the record reads under
      each key the value of the last kept pair with that key when the filter
      accepts the key, and nothing otherwise. */
  lemma StoreOneAttributes(s: Tables, c: ParseContext, key: string)
    requires WellFormed(s) && |c.tags.keys| <= |c.tags.values| && c.annotation.values == []
    ensures var r := StoreOne(s, c);
            GetValueByKey(r.tables.keyNames, r.annotation, key) ==
              if !IsStored(key, r.annotation.typeId, c.tags.parentKey) then None
              else match LastIndex(c.tags.keys, |c.tags.keys|, {key})
                   case None => None
                   case Some(i) => if c.tags.values[i] == "" then None else Some(c.tags.values[i])
  {
    var n := InternNames(s, c);
    var a0 := n.annotation;
    var m := |c.tags.keys|;
    if IsStored(key, a0.typeId, c.tags.parentKey) {
      StoreAttributesLast(n.tables.keyNames, a0, c.tags.keys, c.tags.values, a0.typeId, c.tags.parentKey, m, key);
    } else {
      StoreAttributesSkips(n.tables.keyNames, a0, c.tags.keys, c.tags.values, a0.typeId, c.tags.parentKey, m, key);
    }
    assert GetValueByKey(n.tables.keyNames, a0, key) == None;
    CompleteAttributes(n, c, key);
  }

  /** What the entry reads after the attribute loop it still reads once the entry is
      written and the GTF ancestors are linked. */
  lemma CompleteAttributes(n: Interned, c: ParseContext, key: string)
    requires Placeable(n) && |c.tags.keys| <= |c.tags.values| && |n.annotation.values| <= |n.tables.keyNames|
    ensures var a0 := n.annotation;
            var (keys, a) := StoreAttributes(n.tables.keyNames, a0, c.tags.keys, c.tags.values, a0.typeId, c.tags.parentKey, |c.tags.keys|);
            var r := Complete(n, c);
            r.annotation == a && GetValueByKey(r.tables.keyNames, a, key) == GetValueByKey(keys, a, key)
  {
    var a0 := n.annotation;
    var (keys, a) := StoreAttributes(n.tables.keyNames, a0, c.tags.keys, c.tags.values, a0.typeId, c.tags.parentKey, |c.tags.keys|);
    var rows := PlaceRecord(n.tables.annotations, n.maxId, n.selfId, a);
    var (rows', keys') :=
      if n.geneId.Id? then LinkGtfAncestors(rows, keys, n.geneId.id, a.parentId.id, a, c.tags.gtfGeneName, c.tags.gtfTranscriptName)
      else (rows, keys);
    GetValueByKeyExtend(keys, keys', a, key);
  }
}
