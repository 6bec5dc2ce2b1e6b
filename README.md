# GFF/GTF annotation store I/O — a Dafny model

This project models the part of the SeqAn fragment store that turns GFF/GTF
records into annotation entries and writes them back out
(`source_V2/seqan/store/store_io_gff.h`). It covers:

- the per-record parse context `IOContextGff_` and its `clear`;
- `_readOneAnnotation`: the reader of one decoded record;
- `_adjustParent`: the span merge;
- `_storeOneAnnotation`: the store step, which interns the gene, the parent,
  the contig, the type and the record's own name, applies the attribute
  filter, places the entry, and links and widens the GTF ancestors;
- `_writeCommonGffGtfInfo`: the common columns;
- the GFF and GTF `_writeOneAnnotation` writers;
- `_writeGffGtf`: the id-order loop over the store.

The model is split into seven modules:

- `Annotations` (`annotations.dfy`): the shared data model.
  - `Link` is an id or the `INVALID_ID` sentinel; `Pos` is a position or the
    `INVALID_POS` sentinel. Both sentinels compare above every real value, as
    the source's unsigned maxima do.
  - `Annotation` is one store entry, and `Tables` is the part of the store
    this code touches.
  - `GffRecord` is the decoded record that the record codec hands over.
  - It also holds interning, key/value assignment and lookup, and small
    sequence helpers.
- `SpanMerge` (`span_merge.dfy`): `_adjustParent` as a function, with its
  covering, minimality, idempotence and order-independence lemmas.
- `GffRead` (`gff_read.dfy`):
  - the tag loop as a function `Classify` with lemmas about what it keeps;
  - the context as a class `Context` whose methods `Clear`, `ReadTag`,
    `ReadTags` and `ReadOneAnnotation` update its fields in place and are
    proved against `Classify`.
- `GffStore` (`gff_store.dfy`): the store step as functions on `Tables` (its
  specification). Lemmas show that the step keeps the store well formed, and
  show what the step does to GFF lines and to GTF lines.
- `FragmentStore` (`fragment_store.dfy`): the store as a class `Store`. The
  store step is written as methods that mutate it stage by stage, each proved
  equal to its `GffStore` function.
- `GffWrite` (`gff_write.dfy`): the writers as functions. Lemmas give:
  - the layout of each attribute list;
  - which entries are written and in which order;
  - what the reader of `GffRead` recovers from a written record.
- `GffWriter` (`gff_writer.dfy`): the writers as methods with the source's
  loops: the key-id loop, the two parent walks and the id-order loop. Each is
  proved to produce the records the `GffWrite` functions describe.

Three behaviours of the code are worth knowing, since a reader of the
format might expect otherwise:

- **Reader:** when a record carries several parent-link tags (`Parent`,
  `ParentID`, `transcript_id`), the reader keeps the LAST one, since every tag
  overwrites the context (lines 144-148). It is not the first one.
- **Span merge:** `_adjustParent` runs only on the gene and transcript of a
  GTF line, i.e. a line with `gene_id` (lines 297-315). A GFF child never
  widens its parent.
- **Relinked root:** a GTF line with `gene_id` but no link tag hangs below the
  root. The gene linking then re-parents the root below the gene and types it
  as a transcript (lines 263, 293, 310-311). `GeneWithoutTranscriptRelinksRoot`
  states this.

## Model

| member | source | states |
|---|---|---|
| Annotations.IndexOf | source_V2/seqan/store/store_io_gff.h:266-267 | the lookup used when interning a name: none exactly when the name is absent, otherwise the first index holding it |
| Annotations.Intern | source_V2/seqan/store/store_io_gff.h:266-267 | `_storeAppendContig`/`_storeAppendType`: the table only grows; the id indexes the name; a present name leaves the table alone; a new name is appended with the next id |
| Annotations.InternIdempotent | source_V2/seqan/store/store_io_gff.h:266-267 | interning the same name twice changes nothing the second time and yields the same id |
| Annotations.InternDistinct | source_V2/seqan/store/store_io_gff.h:266-267 | two different names interned one after the other get different ids |
| Annotations.InternAnnotationName | source_V2/seqan/store/store_io_gff.h:270 | an annotation name is never looked up when empty (each empty name gets a fresh id); a present non-empty name keeps the table |
| Annotations.AppendAnnotationName | source_V2/seqan/store/store_io_gff.h:234 | `_storeAppendAnnotationName`: the two tables stay aligned and only grow, the id names the requested name, a known id changes nothing, and a new entry is a default entry typed by the hint |
| Annotations.AppendAnnotationNameStable | source_V2/seqan/store/store_io_gff.h:252-257 | a known non-empty name yields its id again whatever the hint and changes nothing |
| Annotations.AssignValueByKey | source_V2/seqan/store/store_io_gff.h:286 | `annotationAssignValueByKey`: the key table only grows by at most one key; only the entry's values change; backed value slots stay backed |
| Annotations.GetValueByKey | source_V2/seqan/store/store_io_gff.h:514 | `annotationGetValueByKey`: a value is found only when non-empty and only under an interned key |
| Annotations.GetAfterAssign | source_V2/seqan/store/store_io_gff.h:286 | after an assignment, the assigned key reads the value (absent when empty) and every other key reads as before |
| Annotations.GetAfterAssignSame | source_V2/seqan/store/store_io_gff.h:286 | the assigned key reads the assigned value, or nothing when that value is empty |
| Annotations.GetAfterAssignOther | source_V2/seqan/store/store_io_gff.h:286 | assigning one key leaves what every other key reads unchanged |
| Annotations.GetValueByKeyExtend | source_V2/seqan/store/store_io_gff.h:308-314 | interning further keys does not change what an entry with backed values reads |
| Annotations.Select | source_V2/seqan/store/store_io_gff.h:473-478 | the selected indices lie in the mask and are marked true |
| Annotations.SelectOrdered | source_V2/seqan/store/store_io_gff.h:473-478 | the selected indices are strictly increasing and every true position is among them |
| Annotations.SelectIncreasing | source_V2/seqan/store/store_io_gff.h:473-478 | the selected indices are strictly increasing |
| Annotations.SelectComplete | source_V2/seqan/store/store_io_gff.h:473-478 | every true position of the mask is selected |
| Annotations.FlattenSelect | source_V2/seqan/store/store_io_gff.h:573-574 | the j-th value of a flattened list of options is that of the j-th present option |
| SpanMerge.AdjustParent | source_V2/seqan/store/store_io_gff.h:167-216 | `_adjustParent`: only contig and bounds change; an unmergeable child changes nothing; otherwise the parent takes the child's contig; an unplaced parent takes the child's bounds; a half-placed parent keeps its bounds; a spanned parent becomes the union span in its own orientation |
| SpanMerge.AdjustParentCovers | source_V2/seqan/store/store_io_gff.h:189-215 | the merged span covers both the parent's old span and the child's |
| SpanMerge.AdjustParentSmallest | source_V2/seqan/store/store_io_gff.h:189-215 | every interval covering both spans covers the merged span |
| SpanMerge.AdjustParentIdempotent | source_V2/seqan/store/store_io_gff.h:167-216 | merging the same child twice equals merging it once |
| SpanMerge.AdjustParentOrderIndependent | source_V2/seqan/store/store_io_gff.h:189-215 | for a spanned parent, the resulting bounds do not depend on the order in which two children are merged |
| GffRead.ClassifyTagFields | source_V2/seqan/store/store_io_gff.h:132-163 | proof helper for the tag-loop lemmas; one turn of the tag loop: each structural field is overwritten exactly by a tag with its own key, and a pair is kept exactly when it has a non-empty key and value other than `ID` |
| GffRead.LastIndex | source_V2/seqan/store/store_io_gff.h:144-160 | the position of the last tag with a key in the set: no such tag exists after it, and none at all when there is no result |
| GffRead.LastIndexSuffix | source_V2/seqan/store/store_io_gff.h:144-160 | tags after position m whose keys are not in the set do not move the last occurrence |
| GffRead.ClassifyKeepsTags | source_V2/seqan/store/store_io_gff.h:138-142 | the kept keys and values are exactly the tags with a non-empty key and value other than `ID`, in input order and aligned |
| GffRead.ClassifyKeptLists | source_V2/seqan/store/store_io_gff.h:138-142 | the tag loop's key and value lists are the kept keys and the kept values |
| GffRead.KeptSelect | source_V2/seqan/store/store_io_gff.h:138-142 | the kept elements are the elements at the kept positions, in order |
| GffRead.ClassifyKeptPairsClean | source_V2/seqan/store/store_io_gff.h:134-142 | no kept pair has the key `ID`, an empty key or an empty value |
| GffRead.ClassifyStructuralTags | source_V2/seqan/store/store_io_gff.h:134-160 | the record's name, parent key, parent name, gene id, gene name and transcript name each come from the LAST tag with their key (empty when there is none) |
| GffRead.ClassifyNameAndParent | source_V2/seqan/store/store_io_gff.h:134-148 | the name comes from the last `ID` tag, and the parent link from the last `Parent`/`ParentID`/`transcript_id` tag |
| GffRead.ClassifyGtfHints | source_V2/seqan/store/store_io_gff.h:149-160 | `gene_id`, `gene_name` and `transcript_name` come from their last tag |
| GffRead.ClassifyHead | source_V2/seqan/store/store_io_gff.h:134-148 | tags that are neither `ID` nor a parent link do not change the name or the parent link |
| GffRead.OrientedBounds | source_V2/seqan/store/store_io_gff.h:116-126 | the stored bounds are the record's bounds, swapped on the `'-'` strand whatever their values and unswapped otherwise, so that a forward-ordered `'-'` record is stored with begin above end |
| GffRead.Context.constructor | source_V2/seqan/store/store_io_gff.h:44-68 | a fresh context is empty with an unset id and a default entry |
| GffRead.Context.Clear | source_V2/seqan/store/store_io_gff.h:70-90 | `clear`: empties every string and list, unsets the id, and drops the entry's values while keeping its other fields |
| GffRead.Context.ReadTag | source_V2/seqan/store/store_io_gff.h:132-163 | one loop turn updates the tag fields as `ClassifyTag` does and nothing else |
| GffRead.Context.ReadTags | source_V2/seqan/store/store_io_gff.h:130-164 | the tag loop leaves the tag fields equal to `Classify` over all the tags and changes nothing else |
| GffRead.Context.ReadOneAnnotation | source_V2/seqan/store/store_io_gff.h:97-165 | `_readOneAnnotation`: contig and type names from the record, unset id, the entry with the oriented bounds and no values, and the tag fields as `Classify` gives them |
| GffStore.StoreAttributes | source_V2/seqan/store/store_io_gff.h:274-287 | the attribute loop only grows the key table, changes only the entry's values, and keeps them backed |
| GffStore.StoreAttributesSkips | source_V2/seqan/store/store_io_gff.h:276-285 | a key the filter rejects reads afterwards as before: the link key, `gene_id`, `gene_name` off a gene, `transcript_name` off a transcript |
| GffStore.StoreAttributesLast | source_V2/seqan/store/store_io_gff.h:274-287 | a key the filter accepts reads afterwards the value of its last pair, or as before when no pair has it |
| GffStore.InternAncestors | source_V2/seqan/store/store_io_gff.h:228-263 | a gene is interned exactly when `gene_id` is set, under that name; the parent is interned under its name, or is the root when there is none; maxId bounds both; only the annotation tables grow, by unlinked entries without values for the gene or the parent |
| GffStore.InternAncestorsNewEntries | source_V2/seqan/store/store_io_gff.h:231-260 | every entry the ancestor interning creates is a default entry, typed as a gene when it is the gene, and as a transcript (linked by `transcript_id`) or untyped when it is the parent |
| GffStore.InternNamesNewEntries | source_V2/seqan/store/store_io_gff.h:231-272 | every entry the interning stage creates is a default entry typed by its role: gene, parent (transcript or untyped by the link key) or the record itself with the record's type |
| GffStore.InternNames | source_V2/seqan/store/store_io_gff.h:228-272 | the interning stage: ids bounded by maxId; the entry's parent, contig and type set to ids naming the context's strings; the record's own name at its id; only the interned tables grow |
| GffStore.Grow | source_V2/seqan/store/store_io_gff.h:289-290 | the resize keeps the old entries and appends default ones up to the requested length; after interning it appends none (`GffStore.PlaceableNoGrow`) |
| GffStore.PlaceableNoGrow | source_V2/seqan/store/store_io_gff.h:289-290 | once interning has created every named entry, the resize to cover maxId leaves the table as it is |
| GffStore.LinkGtfAncestors | source_V2/seqan/store/store_io_gff.h:297-315 | linking the GTF ancestors keeps the table length and only grows the key table |
| GffStore.Complete | source_V2/seqan/store/store_io_gff.h:274-315 | the stages after interning keep the record's id, the gene id, the table length and the annotation names |
| GffStore.PlaceRecordLinks | source_V2/seqan/store/store_io_gff.h:289-295 | after placing the entry, every entry but the root and a newly created gene has a parent in range |
| GffStore.PlaceRecordBacked | source_V2/seqan/store/store_io_gff.h:289-291 | placing an entry with backed values keeps every entry's values backed |
| GffStore.LinkGtfAncestorsLinks | source_V2/seqan/store/store_io_gff.h:297-315 | linking the gene below the root leaves every non-root entry linked, with backed values |
| GffStore.InternNamesInvariant | source_V2/seqan/store/store_io_gff.h:228-272 | interning keeps the old entries linked and backed, and every new entry is a default entry differing at most in its type |
| GffStore.PlaceRecordEntries | source_V2/seqan/store/store_io_gff.h:289-295 | the entry lands at its id; a parent other than the root without its own parent is linked to the root; nothing else changes |
| GffStore.LinkGtfEntries | source_V2/seqan/store/store_io_gff.h:297-315 | the gene becomes a root child typed gene, the transcript a child of the gene typed transcript, both widened by `AdjustParent`, with their names readable, and nothing else changes |
| GffStore.CompleteWellFormed | source_V2/seqan/store/store_io_gff.h:274-315 | the stages after interning produce a well-formed store |
| GffStore.StoreOneWellFormed | source_V2/seqan/store/store_io_gff.h:218-316 | `_storeOneAnnotation` keeps the store well formed: aligned name and entry tables, every non-root entry linked to an existing parent, values backed by keys |
| GffStore.StoreOneGffLine | source_V2/seqan/store/store_io_gff.h:218-295 | for a line without `gene_id`: the entry at its name's id carries the interned contig and type and the read bounds; it hangs below its named parent or the root; an existing parent is unchanged except that, lacking a parent, it is linked to the root; a new parent is a default entry below the root, typed as a transcript when linked by `transcript_id`; every other old entry is unchanged |
| GffStore.CompleteGtf | source_V2/seqan/store/store_io_gff.h:289-315 | for distinct non-root gene, transcript and record: the gene below the root typed gene and the transcript below the gene typed transcript, both covering the record, with their names, and every other entry unchanged |
| GffStore.StoreOneGtfLine | source_V2/seqan/store/store_io_gff.h:218-316 | for a GTF line with distinct names: the gene below the root, the transcript below the gene and the record below the transcript; both ancestors take the contig, cover the span and carry their names; every other old entry is unchanged |
| GffStore.GeneWithoutTranscriptRelinksRoot | source_V2/seqan/store/store_io_gff.h:263-311 | a GTF line with `gene_id` and no link tag makes the root a child of the gene, typed transcript |
| GffStore.InternAncestorsSameName | source_V2/seqan/store/store_io_gff.h:231-260 | a gene and a transcript of the same name are interned to the same id |
| GffStore.LinkGtfAncestorsSelf | source_V2/seqan/store/store_io_gff.h:300-312 | linking one entry as both gene and transcript leaves it its own parent, typed as a transcript |
| GffStore.SameNameGeneTranscriptCollapse | source_V2/seqan/store/store_io_gff.h:231-315 | a GTF line whose `gene_id` equals its `transcript_id` hangs below one entry that is its own parent and is typed as a transcript |
| GffStore.StoreOneAttributes | source_V2/seqan/store/store_io_gff.h:274-291 | for a freshly read context, the stored entry reads under each key the value of its last kept pair when the filter accepts the key, and nothing otherwise |
| GffStore.CompleteAttributes | source_V2/seqan/store/store_io_gff.h:289-315 | placing and GTF linking keep the record's entry and what its keys read after the attribute loop |
| FragmentStore.Store.AppendAnnotationName | source_V2/seqan/store/store_io_gff.h:234 | the in-place append does what `Annotations.AppendAnnotationName` describes |
| FragmentStore.Store.AppendContig | source_V2/seqan/store/store_io_gff.h:266 | the contig table becomes the interned table, the id the interned id, and nothing else changes |
| FragmentStore.Store.AppendType | source_V2/seqan/store/store_io_gff.h:267 | the type table becomes the interned table, the id the interned id, and nothing else changes |
| FragmentStore.Store.AssignValueByKey | source_V2/seqan/store/store_io_gff.h:286 | the key table and the entry become what `Annotations.AssignValueByKey` gives, and nothing else changes |
| FragmentStore.AncestorStage | source_V2/seqan/store/store_io_gff.h:228-263 | the gene and parent interning leaves the store, ids and maxId that `InternAncestors` gives |
| FragmentStore.InternStage | source_V2/seqan/store/store_io_gff.h:228-272 | the interning stage leaves the store, the entry and the ids that `InternNames` gives |
| FragmentStore.AttributeStage | source_V2/seqan/store/store_io_gff.h:274-287 | the attribute loop leaves the keys and the entry that `StoreAttributes` gives, and changes no other table |
| FragmentStore.PlaceStage | source_V2/seqan/store/store_io_gff.h:289-295 | the entry table becomes `PlaceRecord` of the old one, and nothing else changes |
| FragmentStore.LinkStage | source_V2/seqan/store/store_io_gff.h:297-315 | the entry and key tables become what `LinkGtfAncestors` gives, and nothing else changes |
| FragmentStore.StoreOneAnnotation | source_V2/seqan/store/store_io_gff.h:218-316 | `_storeOneAnnotation` in place: the store, the record's id and its entry are those of `StoreOne`, and the store stays well formed when the context's values are backed |
| GffWrite.CommonInfo | source_V2/seqan/store/store_io_gff.h:367-429 | `_writeCommonGffGtfInfo`: source `.`; contig and type names only for ids in range; bounds in numeric order; strand `'-'` exactly when end lies before begin |
| GffWrite.StrandRoundTrip | source_V2/seqan/store/store_io_gff.h:402-428 | a record with begin before end, read and written back, keeps its bounds and its `'-'` strand (anything else comes back as `'+'`) |
| GffWrite.EmptySpanLosesStrand | source_V2/seqan/store/store_io_gff.h:402-428 | a `'-'` record with begin equal to end comes back as `'+'` |
| GffWrite.StoredPairs | source_V2/seqan/store/store_io_gff.h:473-478 | the key-value loop yields aligned lists with only non-empty values |
| GffWrite.StoredPairsSelect | source_V2/seqan/store/store_io_gff.h:473-478 | the written pairs are exactly the filled value slots, in increasing key-id order, each named by its key |
| GffWrite.Ascend | source_V2/seqan/store/store_io_gff.h:503-511 | a walk that ends stops outside the table or at an entry of the sought type |
| GffWrite.AscendFirst | source_V2/seqan/store/store_io_gff.h:503-511 | the walk ends at the first ancestor that stops it, and only there |
| GffWrite.AscendSteps | source_V2/seqan/store/store_io_gff.h:503-511 | a walk that ends takes no more steps than its fuel |
| GffWrite.AscendReaches | source_V2/seqan/store/store_io_gff.h:503-511 | a walk that ends reaches its ancestor after its step count, with no earlier stopping ancestor |
| GffWrite.OptionalTag | source_V2/seqan/store/store_io_gff.h:513-529 | the two lists stay aligned with at most one element each; they are empty exactly when the value is absent, otherwise they hold the key and the value |
| GffWrite.IdValue | source_V2/seqan/store/store_io_gff.h:450-458 | the `ID` value is the entry's name when named; it is missing exactly when the entry is unnamed and has no children |
| GffWrite.UnnamedLeafHasNoIdValue | source_V2/seqan/store/store_io_gff.h:451-463 | for an unnamed entry without children, the value list is still empty at line 460 |
| GffWrite.IdTestAsWritten | source_V2/seqan/store/store_io_gff.h:450-463 | the list the source's `ID` test reads holds only the `ID` value; it is non-empty exactly when the entry is named or has children, so the as-written test `IdKeyAsWritten` is defined only then, and there it agrees with the guarded test |
| GffWrite.TranscriptOf | source_V2/seqan/store/store_io_gff.h:503-506 | the transcript walk stops outside the table or at a transcript |
| GffWrite.GeneOf | source_V2/seqan/store/store_io_gff.h:508-511 | the gene walk stops outside the table or at a gene |
| GffWrite.GtfHead | source_V2/seqan/store/store_io_gff.h:513-529 | the leading pairs are aligned |
| GffWrite.GtfHeadLayout | source_V2/seqan/store/store_io_gff.h:513-529 | `gene_name` comes first when the gene has one, then `transcript_name` when the transcript has one, then `ID` last exactly when the entry is named, and `ID` appears nowhere else |
| GffWrite.GtfTail | source_V2/seqan/store/store_io_gff.h:542-552 | the trailing pairs are aligned |
| GffWrite.GtfTailLayout | source_V2/seqan/store/store_io_gff.h:539-552 | both `gene_id` and `transcript_id` with the ancestors' unique names when both exist; only `transcript_id` without a gene; nothing without a transcript |
| GffWrite.WellFormedGffWritable | source_V2/seqan/store/store_io_gff.h:466-478 | a well-formed store meets the GFF writer's precondition for every entry: the parent index at line 466 and the key index at line 476 stay inside their tables |
| GffWrite.LineEmits | source_V2/seqan/store/store_io_gff.h:441-442 | a record is written exactly for the entries the dialect emits: every non-root entry in GFF, entries typed above transcript in GTF |
| GffWrite.Entries | source_V2/seqan/store/store_io_gff.h:573-574 | one optional record per entry |
| GffWrite.SerializeFlatten | source_V2/seqan/store/store_io_gff.h:557-575 | the written records are the present records of the entries, in id order |
| GffWrite.EntriesMask | source_V2/seqan/store/store_io_gff.h:557-575 | the entries that get a record are exactly the emitted ones |
| GffWrite.SerializeSelect | source_V2/seqan/store/store_io_gff.h:557-575 | `_writeGffGtf` writes one record per emitted entry, in increasing id order, each the record of that entry |
| GffWrite.SerializeGffAll | source_V2/seqan/store/store_io_gff.h:557-575 | in GFF the j-th record is that of entry j+1 |
| GffWrite.GffEmitIndices | source_V2/seqan/store/store_io_gff.h:441-442 | the GFF writer emits entries 1, 2, … |
| GffWrite.SelectAllButFirst | source_V2/seqan/store/store_io_gff.h:441-442 | a mask false only at 0 selects 1, 2, … |
| GffWrite.GffLineRoot | source_V2/seqan/store/store_io_gff.h:441-442 | the GFF writer skips exactly the root |
| GffWrite.GffLineTags | source_V2/seqan/store/store_io_gff.h:431-481 | the GFF record: the common columns, `ID` with the name or unique name, `Parent` exactly when the parent is neither root nor deleted, then the stored pairs; the lists fall out of step exactly when an unnamed entry with children has an empty unique name |
| GffWrite.GffLineParts | source_V2/seqan/store/store_io_gff.h:448-478 | proof helper for `GffLineReadBack`: the GFF tag lists are the `ID` part, the `Parent` part and the stored pairs in sequence |
| GffWrite.GffLineReadBack | source_V2/seqan/store/store_io_gff.h:448-478 | reading a written GFF record back yields the entry's `ID` value as name and `Parent` with the parent's unique name as link, when no stored key competes |
| GffWrite.HeadClassify | source_V2/seqan/store/store_io_gff.h:134-148 | the name and link read from an optional `ID` tag followed by an optional `Parent` tag |
| GffWrite.GtfLineSkips | source_V2/seqan/store/store_io_gff.h:494-495 | the GTF writer writes exactly the entries typed above transcript |
| GffWrite.GtfLineParts | source_V2/seqan/store/store_io_gff.h:497-552 | proof helper for `GtfLineShape`: the GTF record is the common columns plus the leading, stored and trailing pairs in sequence |
| GffWrite.StoredLayout | source_V2/seqan/store/store_io_gff.h:531-537 | where the stored pairs sit between the head and tail |
| GffWrite.ClassifyGtfTags | source_V2/seqan/store/store_io_gff.h:134-160 | the reader takes `gene_id` and `transcript_id` from the final two tags and `ID` from its single position |
| GffWrite.TailIndices | source_V2/seqan/store/store_io_gff.h:144-156 | with `gene_id`, `transcript_id` last, the link is the last tag and the gene the one before |
| GffWrite.IdIndex | source_V2/seqan/store/store_io_gff.h:134-137 | the last `ID` value, when `ID` appears only at one known position |
| GffWrite.GtfLineShape | source_V2/seqan/store/store_io_gff.h:513-552 | a written GTF feature ends with `gene_id` and `transcript_id` with the ancestors' unique names and has `ID` only where the head puts it |
| GffWrite.GtfLineReadBack | source_V2/seqan/store/store_io_gff.h:513-552 | reading a written GTF feature back yields the gene's unique name as `gene_id`, the transcript's as link, and the entry's name, when no stored key competes |
| GffWrite.GtfTagPositions | source_V2/seqan/store/store_io_gff.h:513-552 | positions of the structural tags in a head + pairs + tail list |
| GffWrite.StoredNoCompeting | source_V2/seqan/store/store_io_gff.h:531-537 | with no competing keys, no stored pair is `ID`, a link key or `gene_id` |
| GffWriter.AppendStoredPairs | source_V2/seqan/store/store_io_gff.h:472-478 | the key-id loop appends exactly `StoredPairs` to both lists |
| GffWriter.WriteOneGff | source_V2/seqan/store/store_io_gff.h:431-481 | the GFF writer, run step by step, produces `GffLine` |
| GffWriter.Walk | source_V2/seqan/store/store_io_gff.h:503-511 | the parent walk loop ends where `Ascend` says |
| GffWriter.GtfHeadPairs | source_V2/seqan/store/store_io_gff.h:513-529 | the leading pairs are `GtfHead` |
| GffWriter.AppendGtfTail | source_V2/seqan/store/store_io_gff.h:542-552 | appends exactly `GtfTail` |
| GffWriter.WriteOneGtf | source_V2/seqan/store/store_io_gff.h:483-555 | the GTF writer, run step by step, produces `GtfLine` |
| GffWriter.WriteOneAnnotation | source_V2/seqan/store/store_io_gff.h:431-555 | dispatching on the dialect produces `Line` |
| GffWriter.WriteGffGtf | source_V2/seqan/store/store_io_gff.h:557-575 | the id-order loop produces `Serialize` over the whole store |

## Left out

- Reading a file (lines 318-361) and the `write` wrappers (lines 577-595): they are file and record-codec I/O. The model starts from a decoded `GffRecord` and ends with the list of records the writers hand to `writeRecord`.
- The `writeRecord` result: the writers' boolean is the codec's success flag, which is I/O.
- The scratch strings `_key` and `_value` are not fields of `Context`: they are set from the record and cleared within one loop turn, so they are never seen outside it.
- Score, phase and the other columns that the store does not keep are not modelled: the source skips them.
- `getAnnoUniqueName` is a parameter `uniqueName: nat -> string`. Its body, which consults the name table and builds a fallback string, is not part of this model.
- `_storeAppendAnnotationName` is modelled as interning, where an empty name always gets a fresh id. It leaves out the type-based disambiguation of repeated names in the store's own helper, which is not part of this model.
- GffStore.LinkGtfAncestors, GffStore.StoreOneGtfLine: the source accepts GTF lines whose gene and transcript share a name (the comment at line 242). Telling the two apart is left to `_storeAppendAnnotationName` and its type argument, which is not part of this model. In the model, interning gives the gene and the transcript one entry, and linking then makes that entry its own parent, typed as a transcript (`GffStore.SameNameGeneTranscriptCollapse`). The GTF writer's gene walk from there never finds a gene. This is why `GffStore.LinkGtfEntries` (`g != p`) and `GffStore.StoreOneGtfLine` (gene and transcript names differ) state their results only for a distinct gene and transcript. `GffStore.StoreOneGtfLine` also leaves out a record named like its own gene or transcript, and a gene or transcript named like the root; in both cases interning again puts two roles on one entry, and the later writes of the store step overwrite the earlier ones.
- Back-links and caches that other store operations maintain, such as `lastChildId`, sibling links and the name cache, are not updated by this code and are not modelled beyond the field `lastChildId`, which the GFF writer reads.
- Ids and positions are unbounded integers. The sentinels are explicit constructors that compare above every value, as the unsigned maxima do, but wrap-around of the id and position types is not modelled.
- GffWriter.Walk: requires the walk to end within as many steps as the store has entries. On a parent cycle that never reaches the sought type, the source loops forever.
- GffWrite.GtfLine: requires the same of both walks (`GtfWritable`), for the same reason.
- GffWrite.GffLine: requires the parent id to be inside the store (`GffWritable`), because line 466 indexes the store with it unchecked.
- GffRead.Context.ReadTags: requires at least as many tag values as tag names, because line 133 indexes the values with the names' positions, which the record codec guarantees.
- FragmentStore.StoreOneAnnotation: well-formedness is promised only when the context's values are backed by interned keys. That holds for every context the reader produces, since the reader clears those values.

## Findings

| source | as written | input that shows it | evidently intended | confidence | as-written member | corrected member |
|---|---|---|---|---|---|---|
| source_V2/seqan/store/store_io_gff.h:460 | `record.tagValue[0]` is read even when no `ID` value was appended | a non-root entry with an empty name and no children (`lastChildId == INVALID_ID`): `tagValue` is still empty at line 460 (`GffWrite.UnnamedLeafHasNoIdValue`) | test for an `ID` value only when one was appended, writing no `ID` tag otherwise (proved of the corrected writer by `GffWrite.GffLineTags`) | not executed | GffWrite.IdTestAsWritten | GffWrite.GffLine |
