/** The fragment store as an object whose tables the reader updates in place, and
    the store step `_storeOneAnnotation` as a method over it and the parse context. */
module FragmentStore {
  import opened Annotations
  import opened SpanMerge
  import opened GffRead
  import opened GffStore

  /** The tables of the fragment store this core touches. */
  class Store {
    var annotationStore: seq<Annotation>
    var annotationNameStore: seq<string>
    var contigNameStore: seq<string>
    var annotationTypeStore: seq<string>
    var annotationKeyStore: seq<string>

    function State(): Tables
      reads this
    {
      Tables(annotationStore, annotationNameStore, contigNameStore, annotationTypeStore, annotationKeyStore)
    }

    predicate Valid()
      reads this
    {
      WellFormed(State())
    }

    /** A store holding only the root entry, named `rootName`, and the given type
        names. */
    constructor (rootName: string, typeNames: seq<string>)
      ensures State() == Tables([Unset.(typeId := Id(AnnoRoot))], [rootName], [], typeNames, [])
      ensures Valid()
    {
      annotationStore := [Unset.(typeId := Id(AnnoRoot))];
      annotationNameStore := [rootName];
      contigNameStore := [];
      annotationTypeStore := typeNames;
      annotationKeyStore := [];
    }

    /** `_storeAppendAnnotationName`: the id of `name`, appending a default entry
        (typed by `hint`) when the name is new. */
    method AppendAnnotationName(name: string, hint: Option<nat>) returns (id: nat)
      requires |annotationStore| == |annotationNameStore|
      modifies this
      ensures (State(), id) == Annotations.AppendAnnotationName(old(State()), name, hint)
    {
      var r := InternAnnotationName(annotationNameStore, name);
      id := r.1;
      if id >= |annotationNameStore| {
        annotationStore := annotationStore + [if hint.Some? then Unset.(typeId := Id(hint.value)) else Unset];
        annotationNameStore := r.0;
      }
    }

    /** `_storeAppendContig`: the id of a contig name, appending it when new. */
    method AppendContig(name: string) returns (id: nat)
      modifies this
      ensures State() == old(State()).(contigNames := Intern(old(contigNameStore), name).0)
      ensures id == Intern(old(contigNameStore), name).1
    {
      var r := Intern(contigNameStore, name);
      contigNameStore, id := r.0, r.1;
    }

    /** `_storeAppendType`: the id of a type name, appending it when new. */
    method AppendType(name: string) returns (id: nat)
      modifies this
      ensures State() == old(State()).(typeNames := Intern(old(annotationTypeStore), name).0)
      ensures id == Intern(old(annotationTypeStore), name).1
    {
      var r := Intern(annotationTypeStore, name);
      annotationTypeStore, id := r.0, r.1;
    }

    /** `annotationAssignValueByKey`: `a` with `value` stored under `key`, the key
        interned into the key table. */
    method AssignValueByKey(a: Annotation, key: string, value: string) returns (b: Annotation)
      modifies this
      ensures (annotationKeyStore, b) == Annotations.AssignValueByKey(old(annotationKeyStore), a, key, value)
      ensures State() == old(State()).(keyNames := annotationKeyStore)
    {
      var r := Annotations.AssignValueByKey(annotationKeyStore, a, key, value);
      annotationKeyStore, b := r.0, r.1;
    }
  }

  /** Interning the gene, for GTF lines, and then the parent, when one is named. */
  method AncestorStage(store: Store, ctx: Context) returns (geneId: Link, parentId: nat, maxId: nat)
    requires |store.annotationStore| == |store.annotationNameStore| && WellFormed(store.State())
    modifies store
    ensures (store.State(), geneId, parentId, maxId) == InternAncestors(old(store.State()), ctx.Tags())
  {
    maxId := 0;
    geneId := NoId;
    if ctx.gtfGeneId != "" {
      var g := store.AppendAnnotationName(ctx.gtfGeneId, Some(AnnoGene));
      geneId := Id(g);
      if maxId < g { maxId := g; }
    }
    parentId := 0;
    if ctx.parentName != "" {
      var hint := if ctx.parentKey == "transcript_id" then Some(AnnoMrna) else None;
      parentId := store.AppendAnnotationName(ctx.parentName, hint);
      if maxId < parentId { maxId := parentId; }
    }
  }

  /** The interning stage of `_storeOneAnnotation`: the gene, the parent (or the
      root), the contig, the type and the record's own name. */
  method InternStage(store: Store, ctx: Context) returns (geneId: Link, selfId: nat, maxId: nat)
    requires WellFormed(store.State())
    modifies store, ctx
    ensures ctx.Tags() == old(ctx.Tags()) && ctx.contigName == old(ctx.contigName) && ctx.typeName == old(ctx.typeName)
    ensures ctx.annotationId == Id(selfId)
    ensures Interned(store.State(), geneId, selfId, ctx.annotation, maxId) == InternNames(old(store.State()), old(ctx.Value()))
  {
    ghost var s := store.State();
    ghost var c := ctx.Value();
    var parentId;
    geneId, parentId, maxId := AncestorStage(store, ctx);
    ctx.annotation := ctx.annotation.(parentId := Id(parentId));
    ghost var s2 := store.State();
    var contigId := store.AppendContig(ctx.contigName);
    ctx.annotation := ctx.annotation.(contigId := Id(contigId));
    var typeId := store.AppendType(ctx.typeName);
    ctx.annotation := ctx.annotation.(typeId := Id(typeId));
    assert store.State() == s2.(contigNames := Intern(s2.contigNames, c.contigName).0,
                                typeNames := Intern(s2.typeNames, c.typeName).0);
    selfId := store.AppendAnnotationName(ctx.annotationName, Some(typeId));
    ctx.annotationId := Id(selfId);
    if maxId < selfId { maxId := selfId; }
  }

  /** The attribute loop of `_storeOneAnnotation`. */
  method AttributeStage(store: Store, ctx: Context)
    requires |ctx.keys| <= |ctx.values|
    modifies store, ctx
    ensures ctx.Tags() == old(ctx.Tags()) && ctx.contigName == old(ctx.contigName) && ctx.typeName == old(ctx.typeName)
    ensures ctx.annotationId == old(ctx.annotationId)
    ensures (store.annotationKeyStore, ctx.annotation) ==
            StoreAttributes(old(store.annotationKeyStore), old(ctx.annotation), old(ctx.keys), old(ctx.values),
                            old(ctx.annotation.typeId), old(ctx.parentKey), old(|ctx.keys|))
    ensures store.State() == old(store.State()).(keyNames := store.annotationKeyStore)
  {
    for i := 0 to |ctx.keys|
      invariant ctx.Tags() == old(ctx.Tags()) && ctx.contigName == old(ctx.contigName) && ctx.typeName == old(ctx.typeName)
      invariant ctx.annotationId == old(ctx.annotationId)
      invariant (store.annotationKeyStore, ctx.annotation) ==
                StoreAttributes(old(store.annotationKeyStore), old(ctx.annotation), old(ctx.keys), old(ctx.values),
                                old(ctx.annotation.typeId), old(ctx.parentKey), i)
      invariant store.State() == old(store.State()).(keyNames := store.annotationKeyStore)
    {
      // the `IsStored` filter, spelled out
      if ctx.keys[i] == "gene_name" && ctx.annotation.typeId != Id(AnnoGene) {
        continue;
      }
      if ctx.keys[i] == "transcript_name" && ctx.annotation.typeId != Id(AnnoMrna) {
        continue;
      }
      if ctx.keys[i] != ctx.parentKey && ctx.keys[i] != "gene_id" {
        ctx.annotation := store.AssignValueByKey(ctx.annotation, ctx.keys[i], ctx.values[i]);
      }
    }
  }

  /** Writing the record's entry and linking its parent to the root if it has none. */
  method PlaceStage(store: Store, a: Annotation, selfId: nat, maxId: nat)
    requires selfId <= maxId && a.parentId.Id? && a.parentId.id <= maxId
    modifies store
    ensures store.annotationStore == PlaceRecord(old(store.annotationStore), maxId, selfId, a)
    ensures store.State() == old(store.State()).(annotations := store.annotationStore)
  {
    if |store.annotationStore| <= maxId {
      store.annotationStore := store.annotationStore + seq(maxId + 1 - |store.annotationStore|, _ => Unset);
    }
    store.annotationStore := store.annotationStore[selfId := a];
    var p := a.parentId.id;
    if p != 0 && store.annotationStore[p].parentId == NoId {
      store.annotationStore := store.annotationStore[p := store.annotationStore[p].(parentId := Id(0))];
    }
  }

  /** Linking and widening the GTF ancestors: the gene below the root, the
      transcript below the gene. */
  method LinkStage(store: Store, g: nat, p: nat, child: Annotation, geneName: string, transcriptName: string)
    requires g < |store.annotationStore| && p < |store.annotationStore|
    modifies store
    ensures (store.annotationStore, store.annotationKeyStore) ==
            LinkGtfAncestors(old(store.annotationStore), old(store.annotationKeyStore), g, p, child, geneName, transcriptName)
    ensures store.State() == old(store.State()).(annotations := store.annotationStore, keyNames := store.annotationKeyStore)
  {
    var gene := store.annotationStore[g].(parentId := Id(0), typeId := Id(AnnoGene));
    gene := AdjustParent(gene, child);
    if geneName != "" {
      gene := store.AssignValueByKey(gene, "gene_name", geneName);
    }
    store.annotationStore := store.annotationStore[g := gene];
    var parent := store.annotationStore[p].(parentId := Id(g), typeId := Id(AnnoMrna));
    parent := AdjustParent(parent, child);
    if transcriptName != "" {
      parent := store.AssignValueByKey(parent, "transcript_name", transcriptName);
    }
    store.annotationStore := store.annotationStore[p := parent];
  }

  /** `_storeOneAnnotation`: stores the record held by `ctx` into `store`, leaving in
      `ctx` the record's id and the entry written for it. */
  method StoreOneAnnotation(store: Store, ctx: Context)
    requires store.Valid() && |ctx.keys| <= |ctx.values|
    modifies store, ctx
    ensures var r := StoreOne(old(store.State()), old(ctx.Value()));
            && store.State() == r.tables
            && ctx.annotationId == Id(r.annotationId) && ctx.annotation == r.annotation
    ensures ctx.Tags() == old(ctx.Tags()) && ctx.contigName == old(ctx.contigName) && ctx.typeName == old(ctx.typeName)
    ensures |old(ctx.annotation.values)| <= |old(store.annotationKeyStore)| ==> store.Valid()
  {
    ghost var s := store.State();
    ghost var c := ctx.Value();
    var geneId, selfId, maxId := InternStage(store, ctx);
    ghost var n := InternNames(s, c);
    AttributeStage(store, ctx);
    PlaceStage(store, ctx.annotation, selfId, maxId);
    if geneId.Id? {
      LinkStage(store, geneId.id, ctx.annotation.parentId.id, ctx.annotation, ctx.gtfGeneName, ctx.gtfTranscriptName);
    }
    assert store.State() == Complete(n, c).tables;
    if |c.annotation.values| <= |s.keyNames| {
      StoreOneWellFormed(s, c);
    }
  }
}
