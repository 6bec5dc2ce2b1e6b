/** The writers as the source runs them: one record built field by field, the
    key-id loop over the value slots, the two walks up the parent chain and the
    id-order loop over the annotation store, each proved to produce the records
    the functions of `GffWrite` describe. */
module GffWriter {
  import opened Annotations
  import opened FragmentStore
  import opened GffWrite

  /** Appends the filled value slots of an entry, in key-id order, to the two tag
      lists. */
  method AppendStoredPairs(keyNames: seq<string>, values: seq<string>, names: seq<string>, vals: seq<string>)
    returns (names': seq<string>, vals': seq<string>)
    requires |values| <= |keyNames|
    ensures names' == names + StoredPairs(keyNames, values, |values|).0
    ensures vals' == vals + StoredPairs(keyNames, values, |values|).1
  {
    names', vals' := names, vals;
    for keyId := 0 to |values|
      invariant names' == names + StoredPairs(keyNames, values, keyId).0
      invariant vals' == vals + StoredPairs(keyNames, values, keyId).1
    {
      if values[keyId] != "" {
        names' := names' + [keyNames[keyId]];
        vals' := vals' + [values[keyId]];
      }
    }
  }

  /** The GFF writer for one entry: nothing for the root, otherwise its record. */
  method WriteOneGff(store: Store, uniqueName: nat -> string, a: Annotation, id: nat) returns (r: Option<GffRecord>)
    requires GffWritable(store.State(), a, id)
    ensures r == GffLine(store.State(), uniqueName, a, id)
  {
    if id == 0 {
      return None;
    }
    var record := CommonInfo(store.State(), a);
    if id < |store.annotationNameStore| && store.annotationNameStore[id] != "" {
      record := record.(tagValue := record.tagValue + [store.annotationNameStore[id]]);
    } else if a.lastChildId != NoId {
      record := record.(tagValue := record.tagValue + [uniqueName(id)]);
    }
    if |record.tagValue| > 0 && |record.tagValue[0]| > 0 {
      record := record.(tagName := record.tagName + ["ID"]);
    }
    if !AtMost(store.annotationStore[a.parentId.id].typeId, 1) {
      record := record.(tagName := record.tagName + ["Parent"],
                        tagValue := record.tagValue + [uniqueName(a.parentId.id)]);
    }
    ghost var idValue := IdValue(store.State(), uniqueName, a, id);
    ghost var parentTag := OptionalTag("Parent",
      if !AtMost(store.annotationStore[a.parentId.id].typeId, 1) then Some(uniqueName(a.parentId.id)) else None);
    assert record.tagValue == idValue + parentTag.1;
    assert record.tagName == (if |idValue| > 0 && |idValue[0]| > 0 then ["ID"] else []) + parentTag.0;
    var names, vals := AppendStoredPairs(store.annotationKeyStore, a.values, record.tagName, record.tagValue);
    r := Some(record.(tagName := names, tagValue := vals));
  }

  /** Steps up from `start` until an entry of type `typ` is reached or the walk
      leaves the table. */
  method Walk(rows: seq<Annotation>, start: Link, typ: nat) returns (l: Link)
    requires Ascend(rows, start, typ, |rows|).Some?
    ensures l == Ascend(rows, start, typ, |rows|).value
  {
    l := start;
    ghost var fuel: nat := |rows|;
    while InRange(l, |rows|) && rows[l.id].typeId != Id(typ)
      invariant Ascend(rows, l, typ, fuel) == Ascend(rows, start, typ, |rows|)
      decreases fuel
    {
      l := rows[l.id].parentId;
      fuel := fuel - 1;
    }
  }

  /** The leading GTF pairs, looked up on the ancestors the walks found. */
  method GtfHeadPairs(store: Store, a: Annotation, id: nat, transcriptId: Link, geneId: Link)
    returns (names: seq<string>, vals: seq<string>)
    requires GtfWritable(store.State(), a) && !AtMost(a.typeId, AnnoMrna)
    requires transcriptId == TranscriptOf(store.State(), a) && geneId == GeneOf(store.State(), a)
    ensures (names, vals) == GtfHead(store.State(), a, id)
  {
    ghost var s := store.State();
    var rows := store.annotationStore;
    names, vals := [], [];
    if InRange(geneId, |rows|) {
      var v := GetValueByKey(store.annotationKeyStore, rows[geneId.id], "gene_name");
      if v.Some? {
        names, vals := names + ["gene_name"], vals + [v.value];
      }
    }
    if InRange(transcriptId, |rows|) {
      var v := GetValueByKey(store.annotationKeyStore, rows[transcriptId.id], "transcript_name");
      if v.Some? {
        names, vals := names + ["transcript_name"], vals + [v.value];
      }
    }
    if id < |store.annotationNameStore| && store.annotationNameStore[id] != "" {
      names, vals := names + ["ID"], vals + [store.annotationNameStore[id]];
    }
    ghost var geneName := OptionalTag("gene_name", ValueAt(s, geneId, "gene_name"));
    ghost var transcriptName := OptionalTag("transcript_name", ValueAt(s, transcriptId, "transcript_name"));
    ghost var idTag := OptionalTag("ID", if id < |s.annotationNames| && s.annotationNames[id] != "" then Some(s.annotationNames[id]) else None);
    assert names == geneName.0 + transcriptName.0 + idTag.0 && vals == geneName.1 + transcriptName.1 + idTag.1;
  }

  /** Appends the trailing `gene_id` and `transcript_id` pairs for the ancestors
      the walks found. */
  method AppendGtfTail(store: Store, uniqueName: nat -> string, a: Annotation, transcriptId: Link, geneId: Link,
                       names: seq<string>, vals: seq<string>)
    returns (names': seq<string>, vals': seq<string>)
    requires GtfWritable(store.State(), a) && !AtMost(a.typeId, AnnoMrna)
    requires transcriptId == TranscriptOf(store.State(), a) && geneId == GeneOf(store.State(), a)
    ensures var tail := GtfTail(store.State(), uniqueName, a);
            names' == names + tail.0 && vals' == vals + tail.1
  {
    var rows := store.annotationStore;
    GtfTailLayout(store.State(), uniqueName, a);
    names', vals' := names, vals;
    if InRange(geneId, |rows|) {
      names', vals' := names' + ["gene_id"], vals' + [uniqueName(geneId.id)];
    }
    if InRange(transcriptId, |rows|) {
      names', vals' := names' + ["transcript_id"], vals' + [uniqueName(transcriptId.id)];
    }
  }

  /** The GTF writer for one entry: nothing for root, deleted, gene and transcript
      entries, otherwise its record. */
  method WriteOneGtf(store: Store, uniqueName: nat -> string, a: Annotation, id: nat) returns (r: Option<GffRecord>)
    requires GtfWritable(store.State(), a)
    ensures r == GtfLine(store.State(), uniqueName, a, id)
  {
    if AtMost(a.typeId, AnnoMrna) {
      return None;
    }
    var record := CommonInfo(store.State(), a);
    var rows := store.annotationStore;
    var transcriptId := Walk(rows, a.parentId, AnnoMrna);
    var geneId := Walk(rows, transcriptId, AnnoGene);
    var names, vals := GtfHeadPairs(store, a, id, transcriptId, geneId);
    names, vals := AppendStoredPairs(store.annotationKeyStore, a.values, names, vals);
    names, vals := AppendGtfTail(store, uniqueName, a, transcriptId, geneId, names, vals);
    r := Some(record.(tagName := names, tagValue := vals));
  }

  /** One entry in the chosen dialect. */
  method WriteOneAnnotation(store: Store, uniqueName: nat -> string, f: Format, a: Annotation, id: nat)
    returns (r: Option<GffRecord>)
    requires Writable(store.State(), f, a, id)
    ensures r == Line(store.State(), uniqueName, f, a, id)
  {
    match f
    case Gff => r := WriteOneGff(store, uniqueName, a, id);
    case Gtf => r := WriteOneGtf(store, uniqueName, a, id);
  }

  /** The whole store, entry by entry in id order. */
  method WriteGffGtf(store: Store, uniqueName: nat -> string, f: Format) returns (records: seq<GffRecord>)
    requires StoreWritable(store.State(), f)
    ensures records == Serialize(store.State(), uniqueName, f, |store.annotationStore|)
  {
    records := [];
    for id := 0 to |store.annotationStore|
      invariant records == Serialize(store.State(), uniqueName, f, id)
    {
      var r := WriteOneAnnotation(store, uniqueName, f, store.annotationStore[id], id);
      records := records + Lines(r);
    }
  }
}
