/** Reading one decoded GFF/GTF record into the per-record parse context
    (`IOContextGff_`, `clear`, `_readOneAnnotation`). */
module GffRead {
  import opened Annotations

  /** The tag keys that name the parent of a record. */
  const ParentKeys: set<string> := {"Parent", "ParentID", "transcript_id"}

  /** A tag that is stored as an ordinary key/value pair: not the record's own
      `ID`, with a non-empty key and a non-empty value. */
  predicate IsKept(key: string, value: string) {
    key != "ID" && key != "" && value != ""
  }

  /** What the tag loop leaves in the context: the record's own name, its parent
      link, the kept key/value pairs and the three GTF structural hints. */
  datatype TagState = TagState(
    annotationName: string,
    parentKey: string,
    parentName: string,
    keys: seq<string>,
    values: seq<string>,
    gtfGeneId: string,
    gtfGeneName: string,
    gtfTranscriptName: string)

  const NoTags := TagState("", "", "", [], [], "", "", "")

  /** One turn of the tag loop. */
  function ClassifyTag(t: TagState, key: string, value: string): TagState {
    var t1 :=
      if key == "ID" then t.(annotationName := value)
      else if key != "" && value != "" then t.(keys := t.keys + [key], values := t.values + [value])
      else t;
    if key in ParentKeys then t1.(parentKey := key, parentName := value)
    else if key == "transcript_name" then t1.(gtfTranscriptName := value)
    else if key == "gene_id" then t1.(gtfGeneId := value)
    else if key == "gene_name" then t1.(gtfGeneName := value)
    else t1
  }

  /** One turn of the tag loop field by field: each structural field is
      overwritten exactly by a tag with its own key. */
  lemma ClassifyTagFields(t: TagState, key: string, value: string)
    ensures var r := ClassifyTag(t, key, value);
            && r.annotationName == (if key == "ID" then value else t.annotationName)
            && r.parentKey == (if key in ParentKeys then key else t.parentKey)
            && r.parentName == (if key in ParentKeys then value else t.parentName)
            && r.gtfGeneId == (if key == "gene_id" then value else t.gtfGeneId)
            && r.gtfGeneName == (if key == "gene_name" then value else t.gtfGeneName)
            && r.gtfTranscriptName == (if key == "transcript_name" then value else t.gtfTranscriptName)
            && (r.keys, r.values) == (if IsKept(key, value) then (t.keys + [key], t.values + [value]) else (t.keys, t.values))
  {
  }

  /** The tag loop run over the first `n` tags. */
  function Classify(names: seq<string>, vals: seq<string>, n: nat): TagState
    requires n <= |names| && n <= |vals|
    decreases n
  {
    if n == 0 then NoTags
    else ClassifyTag(Classify(names, vals, n - 1), names[n - 1], vals[n - 1])
  }

  /** Which of the first `n` tags are kept as key/value pairs. */
  function KeptMask(names: seq<string>, vals: seq<string>, n: nat): seq<bool>
    requires n <= |names| && n <= |vals|
  {
    seq(n, i requires 0 <= i < n => IsKept(names[i], vals[i]))
  }

  /** The position of the last of the first `n` tags whose key is in `ks`. */
  function LastIndex(names: seq<string>, n: nat, ks: set<string>): (r: Option<nat>)
    requires n <= |names|
    ensures r.None? ==> forall j :: 0 <= j < n ==> names[j] !in ks
    ensures r.Some? ==> r.value < n && names[r.value] in ks &&
                        forall j :: r.value < j < n ==> names[j] !in ks
    decreases n
  {
    if n == 0 then None
    else if names[n - 1] in ks then Some(n - 1)
    else LastIndex(names, n - 1, ks)
  }

  /** Tags after position `m` whose keys are not in `ks` do not move the last
      position found. */
  lemma {:induction false} LastIndexSuffix(names: seq<string>, m: nat, n: nat, ks: set<string>)
    requires m <= n <= |names|
    requires forall j :: m <= j < n ==> names[j] !in ks
    ensures LastIndex(names, n, ks) == LastIndex(names, m, ks)
    decreases n
  {
    if n > m {
      LastIndexSuffix(names, m, n - 1, ks);
    }
  }

  /** The value of the last of the first `n` tags whose key is in `ks`, or the
      empty string if there is none. */
  function LastValue(names: seq<string>, vals: seq<string>, n: nat, ks: set<string>): string
    requires n <= |names| && n <= |vals|
  {
    match LastIndex(names, n, ks)
    case None => ""
    case Some(i) => vals[i]
  }

  /** The key of the last of the first `n` tags whose key is in `ks`, or the empty
      string if there is none. */
  function LastKey(names: seq<string>, n: nat, ks: set<string>): string
    requires n <= |names|
  {
    match LastIndex(names, n, ks)
    case None => ""
    case Some(i) => names[i]
  }

  /** The kept pairs are exactly the tags with a non-empty key and value other than
      `ID`, in input order, and the two lists stay aligned. */
  lemma ClassifyKeepsTags(names: seq<string>, vals: seq<string>, n: nat)
    requires n <= |names| && n <= |vals|
    ensures var c := Classify(names, vals, n);
            var idx := Select(KeptMask(names, vals, n));
            && |c.keys| == |idx| == |c.values|
            && (forall j :: 0 <= j < |idx| ==> c.keys[j] == names[idx[j]] && c.values[j] == vals[idx[j]])
  {
    ClassifyKeptLists(names, vals, n);
    KeptSelect(names, vals, n, names);
    KeptSelect(names, vals, n, vals);
  }

  /** The elements of `src` at the first `n` tags that are kept. */
  function Kept(names: seq<string>, vals: seq<string>, n: nat, src: seq<string>): seq<string>
    requires n <= |names| && n <= |vals| && n <= |src|
    decreases n
  {
    if n == 0 then []
    else Kept(names, vals, n - 1, src) + (if IsKept(names[n - 1], vals[n - 1]) then [src[n - 1]] else [])
  }

  /** The tag loop's kept lists are the kept keys and the kept values. */
  lemma {:induction false} ClassifyKeptLists(names: seq<string>, vals: seq<string>, n: nat)
    requires n <= |names| && n <= |vals|
    ensures Classify(names, vals, n).keys == Kept(names, vals, n, names)
    ensures Classify(names, vals, n).values == Kept(names, vals, n, vals)
    decreases n
  {
    if n > 0 {
      ClassifyKeptLists(names, vals, n - 1);
      ClassifyTagFields(Classify(names, vals, n - 1), names[n - 1], vals[n - 1]);
    }
  }

  /** The kept elements are the elements at the kept positions. */
  lemma {:induction false} KeptSelect(names: seq<string>, vals: seq<string>, n: nat, src: seq<string>)
    requires n <= |names| && n <= |vals| && n <= |src|
    ensures var l := Kept(names, vals, n, src);
            var idx := Select(KeptMask(names, vals, n));
            |l| == |idx| && forall j :: 0 <= j < |l| ==> l[j] == src[idx[j]]
    decreases n
  {
    if n > 0 {
      KeptSelect(names, vals, n - 1, src);
      assert KeptMask(names, vals, n)[..n - 1] == KeptMask(names, vals, n - 1);
      SelectAligned(KeptMask(names, vals, n - 1), KeptMask(names, vals, n),
                    Kept(names, vals, n - 1, src), Kept(names, vals, n, src), src);
    }
  }

  /** No kept pair has the key `ID`, an empty key or an empty value. */
  lemma ClassifyKeptPairsClean(names: seq<string>, vals: seq<string>, n: nat)
    requires n <= |names| && n <= |vals|
    ensures var c := Classify(names, vals, n);
            |c.keys| == |c.values| &&
            forall j :: 0 <= j < |c.keys| ==> c.keys[j] != "ID" && c.keys[j] != "" && c.values[j] != ""
  {
    ClassifyKeepsTags(names, vals, n);
    var idx := Select(KeptMask(names, vals, n));
    forall j | 0 <= j < |idx|
      ensures IsKept(names[idx[j]], vals[idx[j]])
    {
      assert KeptMask(names, vals, n)[idx[j]];
    }
  }

  /** The record's own name, its parent link and the GTF hints are each taken from
      the LAST tag with the corresponding key (empty when there is none). */
  lemma ClassifyStructuralTags(names: seq<string>, vals: seq<string>, n: nat)
    requires n <= |names| && n <= |vals|
    ensures var c := Classify(names, vals, n);
            && c.annotationName == LastValue(names, vals, n, {"ID"})
            && c.parentKey == LastKey(names, n, ParentKeys)
            && c.parentName == LastValue(names, vals, n, ParentKeys)
            && c.gtfGeneId == LastValue(names, vals, n, {"gene_id"})
            && c.gtfGeneName == LastValue(names, vals, n, {"gene_name"})
            && c.gtfTranscriptName == LastValue(names, vals, n, {"transcript_name"})
  {
    ClassifyNameAndParent(names, vals, n);
    ClassifyGtfHints(names, vals, n);
  }

  /** The record's own name and its parent link come from the last tag with
      their key. */
  lemma {:induction false} ClassifyNameAndParent(names: seq<string>, vals: seq<string>, n: nat)
    requires n <= |names| && n <= |vals|
    ensures var c := Classify(names, vals, n);
            && c.annotationName == LastValue(names, vals, n, {"ID"})
            && c.parentKey == LastKey(names, n, ParentKeys)
            && c.parentName == LastValue(names, vals, n, ParentKeys)
    decreases n
  {
    if n > 0 {
      ClassifyNameAndParent(names, vals, n - 1);
      var c0 := Classify(names, vals, n - 1);
      var key, value := names[n - 1], vals[n - 1];
      assert Classify(names, vals, n) == ClassifyTag(c0, key, value);
      ClassifyTagFields(c0, key, value);
    }
  }

  /** The three GTF hints come from the last tag with their key. */
  lemma {:induction false} ClassifyGtfHints(names: seq<string>, vals: seq<string>, n: nat)
    requires n <= |names| && n <= |vals|
    ensures var c := Classify(names, vals, n);
            && c.gtfGeneId == LastValue(names, vals, n, {"gene_id"})
            && c.gtfGeneName == LastValue(names, vals, n, {"gene_name"})
            && c.gtfTranscriptName == LastValue(names, vals, n, {"transcript_name"})
    decreases n
  {
    if n > 0 {
      ClassifyGtfHints(names, vals, n - 1);
      var c0 := Classify(names, vals, n - 1);
      var key, value := names[n - 1], vals[n - 1];
      assert Classify(names, vals, n) == ClassifyTag(c0, key, value);
      ClassifyTagFields(c0, key, value);
    }
  }

  /** Tags after the first `h` that are neither `ID` nor a parent link do not change
      the record's name or its parent link. */
  lemma ClassifyHead(names: seq<string>, vals: seq<string>, h: nat)
    requires h <= |names| <= |vals|
    requires forall j :: h <= j < |names| ==> names[j] != "ID" && names[j] !in ParentKeys
    ensures var c := Classify(names, vals, |names|);
            var c0 := Classify(names, vals, h);
            c.annotationName == c0.annotationName && c.parentKey == c0.parentKey && c.parentName == c0.parentName
  {
    ClassifyStructuralTags(names, vals, |names|);
    ClassifyStructuralTags(names, vals, h);
    LastIndexSuffix(names, h, |names|, {"ID"});
    LastIndexSuffix(names, h, |names|, ParentKeys);
  }

  /** The begin and end a record is stored with: swapped on the reverse strand, so
      that orientation survives as `beginPos > endPos`. */
  function OrientedBounds(record: GffRecord): (r: (Pos, Pos))
    ensures record.strand == '-' && Before(record.beginPos, record.endPos) ==> Before(r.1, r.0)
    ensures record.strand != '-' ==> r == (record.beginPos, record.endPos)
    ensures record.strand == '-' ==> r == (record.endPos, record.beginPos)
  {
    if record.strand == '-' then (record.endPos, record.beginPos) else (record.beginPos, record.endPos)
  }

  /** The context fields the store step reads. */
  datatype ParseContext = ParseContext(
    contigName: string,
    typeName: string,
    tags: TagState,
    annotation: Annotation)

  /** The per-record scratch context. `annotation` is the entry being built; only
      its positions and values are reset per record, the store step overwrites the
      rest. */
  class Context {
    var contigName: string
    var typeName: string
    var annotationName: string
    var parentKey: string
    var parentName: string
    var keys: seq<string>
    var values: seq<string>
    var gtfGeneId: string
    var gtfGeneName: string
    var gtfTranscriptName: string
    var annotationId: Link
    var annotation: Annotation

    function Tags(): TagState
      reads this
    {
      TagState(annotationName, parentKey, parentName, keys, values, gtfGeneId, gtfGeneName, gtfTranscriptName)
    }

    function Value(): ParseContext
      reads this
    {
      ParseContext(contigName, typeName, Tags(), annotation)
    }

    constructor ()
      ensures contigName == "" && typeName == "" && Tags() == NoTags
      ensures annotationId == NoId && annotation == Unset
    {
      contigName, typeName := "", "";
      annotationName, parentKey, parentName := "", "", "";
      keys, values := [], [];
      gtfGeneId, gtfGeneName, gtfTranscriptName := "", "", "";
      annotationId := NoId;
      annotation := Unset;
    }

    /** Empties every string and list, unsets `annotationId` and drops the values of
        `annotation`; the other fields of `annotation` are kept. */
    method Clear()
      modifies this
      ensures contigName == "" && typeName == "" && Tags() == NoTags
      ensures annotationId == NoId && annotation == old(annotation).(values := [])
    {
      contigName, typeName := "", "";
      annotationName, parentKey, parentName := "", "", "";
      keys, values := [], [];
      gtfGeneId, gtfGeneName, gtfTranscriptName := "", "", "";
      annotationId := NoId;
      annotation := annotation.(values := []);
    }

    /** One turn of the tag loop of `ReadOneAnnotation`. */
    method ReadTag(key: string, value: string)
      modifies this
      ensures Tags() == ClassifyTag(old(Tags()), key, value)
      ensures contigName == old(contigName) && typeName == old(typeName)
      ensures annotationId == old(annotationId) && annotation == old(annotation)
    {
      ClassifyTagFields(Tags(), key, value);
      if key == "ID" {
        annotationName := value;
      } else if key != "" && value != "" {
        keys := keys + [key];
        values := values + [value];
      }
      if key == "Parent" || key == "ParentID" || key == "transcript_id" {
        parentKey := key;
        parentName := value;
      } else if key == "transcript_name" {
        gtfTranscriptName := value;
      } else if key == "gene_id" {
        gtfGeneId := value;
      } else if key == "gene_name" {
        gtfGeneName := value;
      }
    }

    /** The tag loop of `ReadOneAnnotation`, run on a context without tags. */
    method ReadTags(record: GffRecord)
      requires |record.tagName| <= |record.tagValue| && Tags() == NoTags
      modifies this
      ensures Tags() == Classify(record.tagName, record.tagValue, |record.tagName|)
      ensures contigName == old(contigName) && typeName == old(typeName)
      ensures annotationId == old(annotationId) && annotation == old(annotation)
    {
      var i := 0;
      while i < |record.tagName|
        invariant 0 <= i <= |record.tagName|
        invariant contigName == old(contigName) && typeName == old(typeName)
        invariant annotationId == old(annotationId) && annotation == old(annotation)
        invariant Tags() == Classify(record.tagName, record.tagValue, i)
      {
        ReadTag(record.tagName[i], record.tagValue[i]);
        i := i + 1;
      }
    }

    /** Fills the context from one record: contig and type names, the oriented
        bounds, and the classified tags. */
    method ReadOneAnnotation(record: GffRecord)
      requires |record.tagName| <= |record.tagValue|
      modifies this
      ensures contigName == record.ref && typeName == record.typeName
      ensures Tags() == Classify(record.tagName, record.tagValue, |record.tagName|)
      ensures annotationId == NoId
      ensures annotation == old(annotation).(beginPos := OrientedBounds(record).0,
                                             endPos := OrientedBounds(record).1,
                                             values := [])
    {
      Clear();
      contigName := record.ref;
      typeName := record.typeName;
      annotation := annotation.(beginPos := record.beginPos, endPos := record.endPos);
      if record.strand == '-' {
        var tmp := annotation.beginPos;
        annotation := annotation.(beginPos := annotation.endPos);
        annotation := annotation.(endPos := tmp);
      }
      ReadTags(record);
    }
  }
}
