# Proofs about the migration platform's hard parts

This project models four parts of the migration platform and proves what they are for.

* **CRD schema conversion** (`hack/crd-schemas.py`). Schemas stay raw JSON trees, so a property *named* `properties`
  is data and the keyword is not. Two readings of a schema are defined, the API server's and draft-07's, with every
  keyword the script does not look at, numeric bounds aside, as an arbitrary assertion of each. Where both give these
  keywords one verdict, conversion is proved to change the meaning in exactly one intended way, strictness, and in
  four unintended ones, which are named, shown and accounted for in one equivalence (`SchemaMeaning`,
  `SchemaDepartures`, `SchemaDocuments`, `SchemaNormalForm`). `SchemaKeywords` says of every keyword, at its own name,
  what the conversion makes of it and what either reading takes it for.
* **Composition rendering** (`hack/render-composition.py`). Paths, the getter and the setter are a lens with laws
  (`Paths`, `Lens`, rule by rule in `PathRules`); the setter, the copy, the patch interpreter and the per-resource
  loop then run on a heap of mutable dictionaries and lists and are proved to do what the values say (`PyHeap`,
  `PySet`, `PyCopy`, `PyPatches`, `Render`). The setter stores references, so a document may hold containers of the XR
  or of a transform's table: a ledger computed from the patch list alone says which (`Sharing`), the heap is proved to
  agree with it (`PyLoans`, `PyLend`), and nothing but the document changes while no patch writes below a path on the
  ledger; where one does, the lender and all other holders change (`Aliasing`). The interpreter is a fold over inlined
  patches (`Patches`, `PatchSetOrder`), and each patch writes or not as the XR has its sources (`PatchEffects`); the
  three-pass formatter is a one-pass Sprintf (`GoFormat`, verb by verb in `GoVerbs`); and two formats of the shipped
  Composition name one bucket (`Composition`).
* **Workflow completion notifier** (`controller/`). Store, stale cache, filtered events, queue, the steps of a
  reconcile, and crashes form a transition system with a log of accepted deliveries; safety holds over every run and
  the system drains when the world is quiet (`Notifier`, `NotifierRest`, at Argo's own phases in `NotifierPhases`).
  The retry loop below it and the merge patch it writes have their own modules (`Webhook`, `MergePatch`).
* **Text transformations** (`hack/render-skeleton.py`, `tools/migration-analyzer`). The escape round trip (`Skeleton`,
  at the texts themselves in `SkeletonTexts`), line-aligned comment stripping and what it leaves (`Comments`,
  `CommentRules`, `CommentsLeft`, `CommentsTwice`), the filing of step calls (`Scanner`), and exact findings
  (`Analyzer`, `Sorting`). Regular expressions are written out as scanners; the rule table's are parameters.

Where the repository's words and its code differ, the model follows the code:

* `controller/README.md:16` says restarts do not resend. A restart between an accepted delivery and its annotation
  does (`NotifierRest.RestartResends`); what holds is that repeats are bounded by such faults.
* The controller sends an event "per terminal phase", but the receiver's last event need not be the final phase. Two
  runs end at rest with another one delivered last: in `NotifierRest.WrongPhaseAtRest` a read missed an annotation,
  in `NotifierRest.WrongPhaseUnwritten` only an annotation write failed. `NotifierRest.LastTold` gives the condition.
  If the last accepted delivery's annotation was written, the receiver knows the stored phase iff the stored
  annotation equals it. If neither the read behind that delivery nor the last read missed an annotation, it knows it
  iff that annotation was written. In what is left, the annotation was not written and one read missed something, or
  the other, or both; there nothing that is stored and no record of faults decides it (`UndecidedBehindMiss`,
  `UndecidedLastMiss`, `UndecidedBothMiss`).
* `hack/render-composition.py` leaves its inputs alone only as long as nothing is written below a container that was
  copied: `set_path` stores the XR's own dictionary, or a transform table's, and a later patch of the target then
  writes into the XR or the Composition (`Aliasing.WritesIntoLender`) and into every document made from the same
  container before (`Aliasing.ChangesAnother`).
* `hack/crd-schemas.py:10-11` promises strictness and nothing else. `nullable` is lost; so is an int-or-string node's
  own `oneOf`; so is a boolean `exclusiveMinimum` or `exclusiveMaximum`, which draft-07 does not know; and
  `apiVersion`, `kind` and `metadata`, which the API server accepts undeclared at the root and at embedded resources,
  are rejected where the node is closed without declaring them.
* `strip_comments` promises to remove block comments. One is left when removing another brings a slash and a star
  together before an end mark (`CommentsLeft.CommentLeft`), and a shebang can be brought to the start of a line, so
  stripping is not idempotent (`CommentsTwice.StripTwice`).
* `hack/render-skeleton.py` runs its second substitution over the output of its first, so a literal is safe only if
  the text around it and it do not read as a value reference together.
* The scanner's docstring (`tools/migration-analyzer/src/migration_analyzer/parser.py:3-5`) speaks of stripping
  string contents. The code strips comments only, by pattern, also inside strings.

Python's `str` of a value is a parameter (`PyStr`). Draft-07 keywords follow JSON Schema Validation sections 6.1.1,
6.2.2 to 6.2.5, 6.4.1, 6.5.3, 6.5.4, 6.5.6 and 6.7; merge patches follow section 2 of RFC 7396.

## Model

| member | source | states |
|---|---|---|
| CrdSchemas.ToJsonSchema | hack/crd-schemas.py:36-59 | filling the result key by key gives, in whatever order the keys come, the recursive conversion on every JSON node |
| SchemaKeywords.ValueByName | hack/crd-schemas.py:46-53 | by the keywords' own names: a dictionary under `properties` has every value converted, one under `items`, `additionalProperties` or `not` is converted, a list under `allOf`, `anyOf` or `oneOf` element by element; any other value stays |
| SchemaKeywords.ConvertByName | hack/crd-schemas.py:43-56 | `x-kubernetes-` keys go; every other keyword stays at its name with its value converted, but for `type` and `oneOf` of an int-or-string node |
| SchemaKeywords.AddedByName | hack/crd-schemas.py:42-58 | nothing is added but the two types of an int-or-string node, and `additionalProperties: false` exactly where a node of type object has properties, says nothing of others and is neither preserved nor int-or-string; an explicit false, null, zero or empty marker counts as none |
| SchemaKeywords.ConvertElsewhere | hack/crd-schemas.py:37-40 | lists are converted element by element, scalars stay |
| SchemaKeywords.ElementsByName | hack/crd-schemas.py:48-49 | in either reading `items` asks the schema of every element, `additionalProperties` of every value that is not declared |
| SchemaKeywords.PropertiesByName | hack/crd-schemas.py:46-49 | `properties` asks each declared value that is there, and `additionalProperties` beside it the rest |
| SchemaKeywords.NotByName | hack/crd-schemas.py:48-53 | `not` accepts what its schema does not; `required` asks for the keys it names |
| SchemaKeywords.AllByName | hack/crd-schemas.py:50-51 | `allOf` asks all |
| SchemaKeywords.AnyByName | hack/crd-schemas.py:50-51 | `anyOf` asks for some |
| SchemaKeywords.OneByName | hack/crd-schemas.py:50-51 | `oneOf` asks for exactly one |
| SchemaKeywords.TypesByName | hack/crd-schemas.py:54-56 | the seven type names and the values they take |
| SchemaKeywords.TypeListByName | hack/crd-schemas.py:52-53 | a list of type names takes what one of them takes |
| SchemaKeywords.NullableByName | hack/crd-schemas.py:52-53 | `nullable: true` lets null pass to the API server, and not in draft-07 |
| SchemaKeywords.MarkerByName | hack/crd-schemas.py:54-56 | the int-or-string marker asks the API server for text or an integer, and says nothing to draft-07 or if it is false |
| SchemaKeywords.NullableMarkerByName | hack/crd-schemas.py:54-56 | a nullable int-or-string node takes null as well before conversion |
| SchemaKeywords.BoundsByValue | hack/crd-schemas.py:52-53 | a number under `minimum`, `maximum` or an exclusive bound, and the numbers it lets pass in either reading |
| SchemaKeywords.FlaggedBounds | hack/crd-schemas.py:52-53 | a boolean exclusive bound makes the bound beside it strict to the API server iff it is true, and draft-07 ignores it |
| SchemaKeywords.OthersSayNothing | hack/crd-schemas.py:52-53 | a keyword with a value of the wrong kind, and what is neither a dictionary nor a boolean, rejects nothing in either reading |
| SchemaKeywords.OtherByName | hack/crd-schemas.py:52-53 | any other keyword, markers aside, is the assertion each dialect takes it for |
| SchemaKeywords.BooleanSchemas | hack/crd-schemas.py:40-41 | a boolean schema accepts everything or nothing, in either reading |
| SchemaKeywords.ImplicitByName | hack/crd-schemas.py:57-58 | undeclared, an embedded resource may hold `apiVersion`, `kind` and `metadata`, and is one iff its marker is set |
| SchemaKeywords.StructuralByName | hack/crd-schemas.py:36-59 | a schema without junctors is structural iff its subschemas are |
| SchemaMeaning.ExactStrictness | hack/crd-schemas.py:36-59 | for every structural schema whose uninterpreted keywords both dialects read alike, with no flagged bound under a junctor, and every document: the converted schema accepts it (and overwritten `oneOf`s hold, and no number lies on a bound that a flag excludes) iff the API server does, no declared object has an undeclared key, and no null passes by `nullable` alone |
| SchemaMeaning.ValueOnlyExact | hack/crd-schemas.py:48-51 | under boolean junctors, negation included, conversion changes no verdict at all, if the keywords there are read alike |
| SchemaMeaning.TypeExact | hack/crd-schemas.py:54-56 | the int-or-string rewrite says of a value what the marker and the `type` said before |
| SchemaMeaning.ClosingExact | hack/crd-schemas.py:57-58 | the added `additionalProperties: false` rejects exactly the undeclared keys |
| SchemaDocuments.Strictness | hack/crd-schemas.py:36-59 | with keywords read alike, without `nullable`, without an own `oneOf` on int-or-string nodes and without flagged bounds, strictness is the only change, both directions |
| SchemaDepartures.NullableIsLost | hack/crd-schemas.py:52-53 | a nullable string schema accepts null before conversion and rejects it after |
| SchemaDepartures.OwnOneOfIsLost | hack/crd-schemas.py:54-56 | a structural int-or-string node whose own `oneOf` has a minimum: a number below it is rejected before conversion and accepted after |
| SchemaDepartures.StrictBoundIsLost | hack/crd-schemas.py:52-53 | a boolean `exclusiveMinimum` makes the API server reject the minimum itself; the converted schema accepts it |
| SchemaDepartures.StrictBoundUnderNot | hack/crd-schemas.py:48-49 | under `not` such a bound makes the converted schema reject what the server accepts, with no undeclared key: the condition on junctors is needed |
| SchemaDepartures.OneKeyword | hack/crd-schemas.py:52-53 | a schema of one uninterpreted keyword keeps its meaning iff both dialects read that keyword alike: so is the condition on those |
| SchemaDocuments.WriteDocument | hack/crd-schemas.py:79-84 | the written document is the converted schema of the CRD, stamped with draft-07, in which `properties.metadata` is `{type: object}` if it was a schema object and every other property and keyword is the converted one; it fails iff `properties` is no dictionary |
| SchemaDocuments.OverrideCommutes | hack/crd-schemas.py:80-83 | overriding metadata after conversion equals converting with metadata overridden; whether there is anything to override does not change |
| SchemaDocuments.DocumentStrictness | hack/crd-schemas.py:79-84 | for every structural schema with keywords read alike and every value: the written document accepts it (and overwritten `oneOf`s hold, and no number lies on a bound that a flag excludes) iff the API server does, metadata schema aside, it has no key the server does not know, no null passes by `nullable` alone, and closed nodes declare the resource keys it uses |
| SchemaDocuments.KnownIsServerAndStated | hack/crd-schemas.py:57-58 | having declared keys only is having keys the server knows only, and those of `apiVersion`, `kind`, `metadata` declared where the root or an embedded resource is closed |
| SchemaDocuments.UndeclaredRootKey | hack/crd-schemas.py:57-58 | a document with such a key at the root is rejected if the root is closed without declaring it; where that key is the one question left, it is accepted iff the root declares it or is open |
| SchemaNormalForm.ConvertIsClean | hack/crd-schemas.py:43-53 | no marker is left at any schema position, for any input |
| SchemaNormalForm.ConvertKeepsData | hack/crd-schemas.py:46-53 | property names survive whatever they look like, each with its own subschema converted; data keywords are kept verbatim |
| SchemaNormalForm.ConvertTwice | hack/crd-schemas.py:36-59 | converting twice equals converting once iff no walked node is kept open by the preserve marker alone |
| Paths.ParseSegments | hack/render-composition.py:26-35 | the appending loop yields the left-to-right matches of the segment pattern |
| PathRules.NameIsRead | hack/render-composition.py:23-35 | text up to a dot, a bracket or the end is one name |
| PathRules.BracketIsRead | hack/render-composition.py:23-35 | text between brackets is one segment, dots included: a position iff it is all digits |
| PathRules.PositionIsDecimal | hack/render-composition.py:31-32 | digits in brackets are read as a decimal number |
| PathRules.OthersAreSkipped | hack/render-composition.py:23-35 | dots, empty brackets and brackets without a partner are skipped |
| Paths.RoundTrip | hack/render-composition.py:23-35 | printing a path and parsing it gives it back iff its names are non-empty and free of `]`; all-digit names stay names, dotted keys one segment |
| Paths.SegmentsPrintable | hack/render-composition.py:23-35 | whatever text is parsed, the result is such a path |
| Lens.PutSucceeds | hack/render-composition.py:52-71 | writing succeeds iff every existing container on the path is of the kind its step needs |
| Lens.GetPut | hack/render-composition.py:38-71 | the written value is read back at its path |
| Lens.PutFrame | hack/render-composition.py:52-71 | every slot on a diverging path is still there with its value |
| Lens.PutPut | hack/render-composition.py:52-71 | a second write leaves no trace of the first |
| Lens.PutBelow | hack/render-composition.py:52-71 | writing below a slot that holds a container is writing that container, at the rest of the path |
| Lens.FitsKept | hack/render-composition.py:52-71 | a write does not make a diverging path fail that was writable, if the fillers it pads lists with are of the kind the other path needs, as they always are for dictionary paths |
| Lens.IncompatibleClash | hack/render-composition.py:52-71 | and if they are not, some document is writable at both paths and no longer at the second after the first write |
| Lens.ListGrowth | hack/render-composition.py:58-64 | each list on the path grows to exactly max(old length, index+1), keeps its entries, and is padded by what the next segment needs |
| Lens.DictGrowth | hack/render-composition.py:65-71 | each dictionary on the path gains at most the one key |
| Lens.GetAside | hack/render-composition.py:52-71 | along dictionary keys, whatever is read on a diverging path reads the same after a write, null included |
| PathRules.GetRules | hack/render-composition.py:38-49 | reading goes step by step: a name in a dictionary, a position in a list, null where there is none |
| PathRules.LastStep | hack/render-composition.py:52-71 | the last step of a write stores under the key or position, with empty lists padding a short list, and fails on anything else; an empty path writes nothing |
| PathRules.InnerStep | hack/render-composition.py:57-71 | any other step writes below what is there; a missing or null key gets a dictionary if a name comes next, else a list, and so do the positions that pad a list, whose own nulls are not replaced |
| PySet.SetPathInPlace | hack/render-composition.py:52-71 | the cursor loop on the heap, storing any reference, fails iff the lens write fails, and else leaves the written value at the same root, in the document's own cells and fresh ones; the containers it holds of others are those it held off the path, and the one stored; one that the path goes on below is taken as part of the document, as the code does |
| PySet.StepIndex | hack/render-composition.py:58-64 | an index step pads, stores any reference or descends as the lens write does, with the rest of the document in place |
| PySet.StepName | hack/render-composition.py:65-71 | likewise a name step, with its missing-or-null test |
| PySet.GetPathInPlace | hack/render-composition.py:38-49 | the reference it returns holds the value the lens reads |
| PyCopy.DeepCopy | hack/render-composition.py:139 | dumping and loading a base gives an equal document that shares no cell with anything before it |
| GoFormat.FormatIsSprintf | hack/render-composition.py:74-90 | for all formats and values, errors included, hide-substitute-show equals one left-to-right Sprintf up to NULs shown as percent signs, and exactly iff no NUL is involved |
| GoFormat.PassesAreSprintf | hack/render-composition.py:90 | from any argument position, `%%` is never half of a verb and inserted values are never read as verbs |
| GoFormat.NulsComeFromInputs | hack/render-composition.py:90 | a NUL in the output is one of the format or of a value it used |
| GoFormat.GoFormat | hack/render-composition.py:77-90 | the counter-updating substitution computes the three-pass result |
| GoVerbs.PlainText | hack/render-composition.py:90 | a text without percent signs and NULs prints as itself |
| GoVerbs.VerbsInTurn | hack/render-composition.py:74-90 | `%s`, `%d` and `%v` print the next value or fail; `%%` is a percent sign; before any other character but a bracket a percent sign is text |
| GoVerbs.VerbsByNumber | hack/render-composition.py:82-88 | a verb numbered n prints the n-th value, counted from one, and those behind it go on from there; zero takes the last, and any other number fails |
| GoVerbs.OtherBrackets | hack/render-composition.py:74 | a bracket without digits, its partner and one of the three letters is text |
| GoVerbs.OneVerb | hack/render-composition.py:74-90 | each of the three formats of one verb prints its value, and fails without one |
| Patches.InterpretIsFold | hack/render-composition.py:105-124 | with acyclic PatchSets, interpreting is folding over the list with every set inlined, failures included |
| PatchSetOrder.RankedWhenAcyclic | hack/render-composition.py:105-109 | PatchSets can be ranked for that iff no reference leads back to where it started |
| PatchSetOrder.ListRanked | hack/render-composition.py:105-109 | then any list of patches can be interpreted |
| PatchSetOrder.AnyRanking | hack/render-composition.py:105-124 | and which ranking is taken makes no difference |
| Patches.SkippedPatch | hack/render-composition.py:111-118 | a patch whose source is missing may be dropped from the list |
| PatchEffects.MissingLeavesAlone | hack/render-composition.py:110-121 | interpreting a list with a patch whose source, or one of whose sources, the XR lacks or holds as null is interpreting the list without it, so what an earlier patch wrote stays; likewise a patch towards the XR |
| PatchEffects.PresentIsWritten | hack/render-composition.py:110-114 | a patch whose source is there writes what its transforms make of it at its destination, and fails iff they or the setter do |
| PatchEffects.CombinedIsWritten | hack/render-composition.py:115-119 | a combining patch whose sources are all there writes the formatted text at its destination, and fails iff the format or the setter does |
| PatchEffects.TransformRules | hack/render-composition.py:93-102 | a map takes the entry for the printed value, `true` and `false` for the booleans, and keeps a value it does not list; a format prints; others fail |
| PatchEffects.TransformsInTurn | hack/render-composition.py:93-102 | a list of transforms is its parts applied one after the other, the first failure deciding |
| PatchEffects.VersioningMapped | infra/crossplane/composition.yaml:95-102 | the versioning switch maps true to `Enabled` and false to `Suspended` |
| PatchEffects.UnknownFails | hack/render-composition.py:108-123 | an unknown patch type or PatchSet ends the rendering with an error |
| Patches.FoldFrame | hack/render-composition.py:105-124 | a slot no patch overlaps keeps its value |
| Patches.LastWriterWins | hack/render-composition.py:105-124 | a destination holds the value of the last patch that writes it if no later one overlaps it |
| Patches.FoldSucceeds | hack/render-composition.py:105-124 | patches that have effects, room in the target and destinations apart (by dictionary keys, or by list indexes with fillers of one kind) all succeed |
| PyPatches.TransformValue | hack/render-composition.py:93-102 | the transform loop composes the transforms and stops at the first unsupported one or formatting error; a container that comes out is the one that went in or the last table's entry, by reference |
| PyPatches.ReadEffect | hack/render-composition.py:110-119 | reading on the heap decides the same write, skip or error as on values, and changes nothing; a container it is to write is the XR's own or a table's |
| Sharing.IsolatedFromNothing | hack/render-composition.py:105-124 | no patch writes into another document if none that stores a container is followed by one whose destination goes on strictly below it |
| Sharing.FirstTrespass | hack/render-composition.py:105-124 | a list that is not isolated has a first patch that would write below a container on loan, with an isolated list before it |
| Sharing.ScalarReadsIsolate | hack/render-composition.py:93-102 | if all that is read and all table entries are scalars, a list is isolated |
| Sharing.ScalarsStayScalar | hack/render-composition.py:93-102 | transforms that map to scalars turn a scalar into a scalar |
| PyLend.LedgerKept | hack/render-composition.py:111-114 | after a heap write, the containers a document holds of the XR and the Composition are those the ledger on the patch list says |
| PyPatches.ApplyInPlace | hack/render-composition.py:110-119 | one patch: off the containers on loan it does what it does on values and the inputs stay as they were; a scalar below one is written into the lender, at the place the container came from |
| PyPatches.ApplyPatches | hack/render-composition.py:105-124 | the recursive interpreter: an isolated list, PatchSets inlined, does what the interpreter on values says, with the XR and the Composition stored as before; a list whose last patch, PatchSets inlined, is the first to write below a container on loan, and writes a scalar, writes into the lender there |
| Aliasing.WritesIntoLender | hack/render-composition.py:111-114 | isolation fails: storing any container of the XR or of a table and writing a scalar below it leaves that scalar in the XR or the Composition, below the container that was stored, and nothing else there changes |
| Aliasing.ChangesAnother | hack/render-composition.py:138-144 | two documents made with one container: writing below it in the second leaves the first as if the scalar had been patched into it |
| Render.Introduce | hack/render-composition.py:140-143 | a copied base is named after the XR and the resource, and takes the XR's namespace if it has one, by reference if that is a container |
| Render.NamedDocument | hack/render-composition.py:139-144 | unless a patch overlaps the slot, the document is named XR-resource and lies in the XR's namespace |
| Render.IntroducedAtMetadata | hack/render-composition.py:139-143 | introducing a copied base succeeds iff it and its metadata, if any, are dictionaries and the XR has a name; it is then named XR-resource and has the XR's namespace, its own only if that is missing, null, false, zero or empty |
| Render.NamedAtMetadata | hack/render-composition.py:139-144 | the composed document holds XR-resource at `metadata.name`, and at `metadata.namespace` the XR's namespace if that is anything but null, false, zero or empty, else what the base had there, unless a patch overlaps the slot |
| Render.RenderResources | hack/render-composition.py:138-145 | isolation, for resources whose patch lists are isolated by the ledger: nothing that existed is written; the XR, the Composition and all bases are stored as before, each document is what its own resource composes to and holds of them what its ledger says, and no two share a cell of their own |
| Composition.FormatsAgree | infra/crossplane/composition.yaml:43-226 | the sequential format gives name-uid, the indexed one the policy with that string in both ARNs |
| Composition.PolicyArns | infra/crossplane/composition.yaml:217-226 | the policy for a bucket names it twice as `arn:aws:s3:::` and its name, once in full quotes and once with the objects below it |
| Composition.CrossResourceAgreement | infra/crossplane/composition.yaml:34-227 | for every XR with a name and uid: on bases that are dictionaries where the patches go through both resources render, and whenever they do the bucket's external name is name-uid and the policy is the one for that bucket |
| Composition.WrittenUsable | infra/crossplane/composition.yaml:31-227 | the Composition's own field paths meet what the agreement asks: printable, dictionary paths only, and apart from each other |
| Composition.ShippedAgreement | infra/crossplane/composition.yaml:34-227 | so for the Composition as written, at literal paths, for names and uids without NUL: the annotation `crossplane.io/external-name` of the bucket and `spec.forProvider.policy` name one bucket |
| Notifier.Reconcile | controller/internal/controller/workflow_controller.go:49-94 | an uninterrupted call is a run of the model's steps: it delivers iff the cached phase is `Succeeded`, `Failed` or `Error` and not the cached annotation, and the post is accepted; it annotates with that phase only then, and requeues iff it returns an error |
| NotifierPhases.TerminalPhases | controller/api/v1alpha1/types.go:30-48 | exactly `Succeeded`, `Failed` and `Error` are terminal; the empty phase, `Pending` and `Running` are not |
| NotifierPhases.Delivers | controller/internal/controller/workflow_controller.go:60-69 | the worker comes to deliver by a read of one of the three phases that is not the noted one, and by nothing else |
| NotifierPhases.Passes | controller/internal/controller/workflow_controller.go:69-93 | what is accepted is the phase that was read, what is noted the phase that was accepted; nothing else is delivered or stored |
| NotifierPhases.Requeues | controller/internal/controller/workflow_controller.go:57-92 | a failing step puts the workflow back into the queue, the last one does not |
| NotifierPhases.Filtered | controller/internal/controller/workflow_controller.go:121-136 | first sights and changes of phase are queued, deletions and other updates are not |
| NotifierPhases.MayHappen | controller/internal/controller/workflow_controller.go:49-136 | no fault is excluded: phases change and workflows go at any time, the watch may show any version, old ones included, and each call may fail, writes also after they were carried out |
| NotifierPhases.Restarts | controller/internal/controller/workflow_controller.go:49-136 | a restart keeps what is stored and what was told and nothing the controller held; it leaves a delivery unrecorded iff one was between acceptance and annotation |
| Notifier.RunKeeps | controller/internal/controller/workflow_controller.go:49-137 | every run, with stale caches, coalesced events, failures, phase bounces and crashes, keeps the invariant of every workflow |
| Notifier.NoLostCompletion | controller/internal/controller/workflow_controller.go:49-136 | in every reachable state a stored terminal phase has been accepted, or the watch has yet to show it, or an event, queue entry or reconcile is pending for it |
| NotifierPhases.NothingLost | controller/internal/controller/workflow_controller.go:49-136 | the same spelt out for the three phases: accepted, or not yet shown by the watch, or queued, being reconciled, or announced by an event the filter lets through |
| Notifier.NotesAreTrue | controller/internal/controller/workflow_controller.go:64-93 | a stored annotation implies an accepted delivery of that phase |
| Notifier.BoundedDuplication | controller/internal/controller/workflow_controller.go:60-93 | adjacent deliveries of one phase number at most the unrecorded deliveries plus the reads that missed the annotation |
| Notifier.FaultFreeNeverRepeats | controller/internal/controller/workflow_controller.go:47-48 | without such faults consecutive deliveries carry different phases |
| NotifierRest.QuietShrinks | controller/internal/controller/workflow_controller.go:49-136 | every step of a quiet world lowers the measure over undelivered watch updates, events, queue and worker |
| NotifierRest.StuckIsAtRest | controller/internal/controller/workflow_controller.go:49-136 | a system with no quiet step left has caught up, with no event, no queue entry and no reconcile |
| NotifierRest.ComesToRest | controller/internal/controller/workflow_controller.go:49-136 | from every state some quiet run ends at rest |
| NotifierRest.Drains | controller/internal/controller/workflow_controller.go:49-136 | from a reachable state every quiet run is bounded by the measure, and one that cannot go on leaves every present terminal phase delivered |
| NotifierRest.LastTold | controller/internal/controller/workflow_controller.go:60-93 | at rest with a terminal phase stored: if the last delivery's annotation was written, that delivery was of the stored phase iff the annotation equals it; if not, the annotation equals the phase iff the last read missed nothing; if the reads behind that delivery and last missed nothing, the delivery was of that phase iff its annotation was written; with no fault it was |
| NotifierRest.WrongPhaseAtRest | controller/internal/controller/workflow_controller.go:60-93 | for any two terminal phases, a run in which one read missed an annotation ends at rest with the wrong one delivered last |
| NotifierRest.WrongPhaseUnwritten | controller/internal/controller/workflow_controller.go:69-93 | so does a run in which one annotation write failed and no read missed anything, with the annotation equal to the phase |
| NotifierRest.UndecidedBehindMiss | controller/internal/controller/workflow_controller.go:60-93 | if the unwritten delivery was made behind a missed annotation, two runs end with the same object and faults, and differ in what was told last |
| NotifierRest.UndecidedLastMiss | controller/internal/controller/workflow_controller.go:60-93 | likewise if a delivery went unwritten and the last read, of a stale listing after a restart, missed an annotation |
| NotifierRest.UndecidedBothMiss | controller/internal/controller/workflow_controller.go:60-93 | likewise if both reads missed one |
| NotifierRest.RestartResends | controller/internal/controller/workflow_controller.go:69-93 | a crash between delivery and annotation makes the same phase be delivered twice running: the bound is met |
| Webhook.Notify | controller/internal/notify/notify.go:56-121 | posts go on while there is no answer, a 429, or a status outside 200 to 299 and 400 to 499, up to the last attempt or the end of the context; the result is nil iff the last post was answered with 200 to 299 and permanent iff with 400 to 499 other than 429; zero retries mean three posts, negative ones none and an error; no backoff means half a second |
| Webhook.TotalWait | controller/internal/notify/notify.go:72-77 | n waits add up to backoff*(2^n-1) while the last one fits |
| Webhook.DelayExact | controller/internal/notify/notify.go:76 | in int64 nanoseconds a delay is the one meant iff that one fits |
| Webhook.DelaysDouble | controller/internal/notify/notify.go:76 | the first delay is the backoff and each next one twice the last while that fits |
| Webhook.DefaultDelays | controller/internal/notify/notify.go:65-76 | with the default backoff that is iff the attempt is at most the 35th retry |
| MergePatch.NotifiedPatchIsPut | controller/internal/controller/workflow_controller.go:77-87 | merging the controller's patch is writing the phase at `metadata`, `annotations`, `migration-platform.io/notified-phase` iff metadata and annotations are objects where present |
| MergePatch.NotifiedPatchFrame | controller/internal/controller/workflow_controller.go:77-87 | the annotation reads as the phase, and every diverging path is as it was iff no list with elements stands in the way |
| MergePatch.MergeTwice | controller/internal/controller/workflow_controller.go:87-92 | applying any merge patch twice is applying it once, so a patch whose answer was lost may be sent again |
| MergePatch.PatchAsSent | controller/internal/controller/workflow_controller.go:79-83 | the patch as the controller builds it, key by key |
| MergePatch.OneKey | controller/internal/controller/workflow_controller.go:87 | a patch of one key removes it by null, else merges into what is there; other keys stay, as RFC 7396 says |
| MergePatch.InParts | controller/internal/controller/workflow_controller.go:87 | a patch applied in parts does what it does at once |
| Skeleton.RenderMeans | hack/render-skeleton.py:33-35 | a file of plain pieces, references and doubled literals renders to what is meant iff the texts between its references, joined, hold no value reference |
| Skeleton.FirstPass | hack/render-skeleton.py:34 | the first substitution replaces exactly the literals, whatever texts they hold |
| Skeleton.SealedTextsSuffice | hack/render-skeleton.py:33-35 | pieces that each close what they open, do not end inside an opening and hold no reference are safe together |
| Skeleton.DollarFreeIsSealed | hack/render-skeleton.py:33-35 | as any piece without a dollar sign is |
| Skeleton.TornOpening | hack/render-skeleton.py:33-35 | a plain dollar sign before a literal that starts with braces is rendered as a value: plain pieces need that condition too |
| Skeleton.DoubleUndone | hack/render-skeleton.py:34 | undoubling undoes the escaper |
| SkeletonTexts.LookedUp | hack/render-skeleton.py:19-35 | the eight example values, and the placeholder for any other name |
| SkeletonTexts.Blanks | hack/render-skeleton.py:29-30 | the characters a name may have, and the white space of Python's patterns, ASCII and beyond |
| SkeletonTexts.ReferenceMatched | hack/render-skeleton.py:30 | a value reference with any blanks inside its braces is matched, with its name |
| SkeletonTexts.LiteralMatched | hack/render-skeleton.py:29 | so is a quoted literal, with its text |
| SkeletonTexts.QuotesHalved | hack/render-skeleton.py:34 | two quotes in a literal are one, wherever they stand |
| Comments.LineAlignment | tools/migration-analyzer/src/migration_analyzer/parser.py:39-53 | as many lines out as in, each a subsequence of the line it came from, for every text |
| Comments.PrefixWithoutBlocks | tools/migration-analyzer/src/migration_analyzer/parser.py:39-47 | without `/*` each output line is its input line cut short, nothing for a shebang |
| Comments.BlockBlanked | tools/migration-analyzer/src/migration_analyzer/parser.py:43-46 | a block comment runs to the first end mark and leaves exactly its newlines; text before it is untouched |
| Comments.UnclosedLeft | tools/migration-analyzer/src/migration_analyzer/parser.py:13 | a comment that never ends is left as it is |
| Comments.NoLineCommentLeft | tools/migration-analyzer/src/migration_analyzer/parser.py:14-47 | no output line holds the start of a line comment |
| CommentRules.LineRules | tools/migration-analyzer/src/migration_analyzer/parser.py:14-47 | in a text that opens no block comment a line that starts with `#!` is emptied and any other is cut before its first two slashes that begin it or follow neither a colon nor a quote |
| CommentRules.SlashesKept | tools/migration-analyzer/src/migration_analyzer/parser.py:14 | slashes behind a colon or a quote stay, as in a URL |
| CommentRules.SlashesCut | tools/migration-analyzer/src/migration_analyzer/parser.py:14 | behind anything else they go with what follows, and the character before them stays |
| CommentsLeft.CommentLeft | tools/migration-analyzer/src/migration_analyzer/parser.py:43-46 | a closed block comment is left iff removals without newlines bring a slash and a star together with an end mark behind them |
| CommentsLeft.BlankTwice | tools/migration-analyzer/src/migration_analyzer/parser.py:43-46 | blanking block comments twice is blanking them once iff that does not happen |
| CommentsLeft.StrippedAlready | tools/migration-analyzer/src/migration_analyzer/parser.py:39-47 | stripping changes nothing iff no line is a shebang or holds a line comment and no block comment is closed |
| CommentsTwice.StripTwice | tools/migration-analyzer/src/migration_analyzer/parser.py:39-47 | stripping twice is stripping once iff, in the text without its shebang lines, removing block comments brings no shebang to the start of a line and forms no comment that the line comments let stand |
| CommentsTwice.CommentStaysExact | tools/migration-analyzer/src/migration_analyzer/parser.py:39-47 | a closed block comment is left by all passes iff removals bring a slash and a star together outside line comments, with an end mark behind them that no line comment cuts off |
| CommentsLeft.BlockLeft | tools/migration-analyzer/src/migration_analyzer/parser.py:46 | an input where one is left, which a second pass removes |
| Comments.LinesOfJoin | tools/migration-analyzer/src/migration_analyzer/parser.py:47-52 | splitting what was joined gives the lines back |
| Scanner.Scanned.constructor | tools/migration-analyzer/src/migration_analyzer/parser.py:50-74 | the length assertion never fails; step calls are filed by name in order of first call, ids listed once in order of first mention |
| Scanner.FileCalls | tools/migration-analyzer/src/migration_analyzer/parser.py:71-73 | each called name is filed once, with the lines of all its calls |
| Scanner.CallsExact | tools/migration-analyzer/src/migration_analyzer/parser.py:71-73 | the lines filed for a name are exactly those that call it, numbered from one |
| Scanner.CallsAscend | tools/migration-analyzer/src/migration_analyzer/parser.py:71-73 | the lines filed for a name ascend |
| Scanner.FirstCall | tools/migration-analyzer/src/migration_analyzer/parser.py:71-73 | the first of them is the least line that calls it |
| Sorting.StableSortSorts | tools/migration-analyzer/src/migration_analyzer/analyzer.py:43-66 | the sort orders, keeps every element with its multiplicity, and leaves ties in order |
| Sorting.StableSortUnique | tools/migration-analyzer/src/migration_analyzer/analyzer.py:43-66 | those properties leave one result, so any stable sort is this one |
| Sorting.StrLeExact | tools/migration-analyzer/src/migration_analyzer/analyzer.py:43-66 | the strings are in the order of their first different character, a prefix first |
| Analyzer.ApplyRule | tools/migration-analyzer/src/migration_analyzer/analyzer.py:21-39 | the inner loop with its early break makes the findings of one rule |
| Analyzer.ByRuleExact | tools/migration-analyzer/src/migration_analyzer/analyzer.py:21-39 | those are one for each matching line, or for the least matching line only if the rule reports once, and no other |
| Analyzer.ByRuleAscends | tools/migration-analyzer/src/migration_analyzer/analyzer.py:21-39 | in strictly ascending line order, so none twice |
| Analyzer.ReportSteps | tools/migration-analyzer/src/migration_analyzer/analyzer.py:49-62 | each library step gives one finding at its first call line |
| Analyzer.LibraryStepsExact | tools/migration-analyzer/src/migration_analyzer/analyzer.py:43-48 | the library steps are exactly the called names that are unknown, not defined in the file and do not start with a capital letter, each once, ascending |
| Analyzer.PluginStepsExact | tools/migration-analyzer/src/migration_analyzer/analyzer.py:64 | the plugin steps are exactly the called names of the plugin set, each once, ascending |
| Analyzer.AnalyzeText | tools/migration-analyzer/src/migration_analyzer/analyzer.py:12-68 | the report's findings are the stable sort by line and rule of all the loops found |
| Analyzer.FindingsExact | tools/migration-analyzer/src/migration_analyzer/analyzer.py:19-67 | the findings are exactly those of the rules' reported lines and one `shared-library-step`, manual, at the first call of each library step; they are in order of line, then rule, each as often as that, in number the sum of both |
| Analyzer.Report.Count | tools/migration-analyzer/src/migration_analyzer/model.py:53-54 | the count of a category is the number of findings in it |
| Analyzer.Report.Summary | tools/migration-analyzer/src/migration_analyzer/model.py:56-58 | the summary has each category with its count, and the four add up to the number of findings |
| Analyzer.CountsAddUp | tools/migration-analyzer/src/migration_analyzer/model.py:53-58 | any list of findings is as long as its four categories together |

## Left out

- Input and output: YAML and JSON loading and dumping, URLs, file walking, argument parsing, HTTP, HMAC, metrics, logging and manager start-up. A post is its outcome; dumping and loading a base is a deep copy.
- Schema keywords beyond type, required, properties, additionalProperties, items, not, allOf, anyOf, oneOf and the numeric bounds are two arbitrary assertions per keyword, one a dialect; a keyword whose value its dialect does not know, a boolean bound for one, is taken as ignored, though a validator may refuse the schema; the server's own reading of `x-kubernetes-validations` and defaults is not modelled.
- YAML mappings with non-string keys, and anchors that make two places of a loaded document one object; JSON numbers are reals.
- An integer segment that meets a dictionary or a string in `set_path` is a failure here; Python would store an integer key in a dictionary it finds long enough.
- `isdigit` and `\d` on digits outside ASCII; indexes out of range are one error. A verb with index zero takes the last value, as Python's index -1 does.
- Patch dictionaries that lack their required keys; a PatchSet graph with a cycle, on which the script recurses until it is stopped.
- PyPatches.ApplyPatches: runs patches up to the first that writes below a container on loan, that one included if it writes a scalar and is not followed by references to empty PatchSets; later patches then read a changed XR, and a container stored inside its own lender could make that cyclic.
- Render.RenderResources: asks isolated patch lists of all resources; what a list that is not does to other documents is `Aliasing.ChangesAnother`.
- Sharing.FirstTrespass: the patch it finds would write below a container on loan; that the lender then changes is shown by `PyPatches.ApplyInPlace` for a scalar, and it may be the scalar that is there.
- Notifier: queue rate limiting and back-off delays, more than one worker per key, other writers of the annotation, and deletion and re-creation under one name compacted into one update. `eventFor` fills fields that decide nothing.
- Webhook.Notify: the attempt counter is unbounded; Go's wraps only past 2^63 attempts. The request's own errors are transient outcomes.
- Skeleton: the path segments of the file tree, rendered by the same function one by one.
- Analyzer: titles, equivalents and notes of findings are copied from the rule table or built for display; the table's patterns, the known steps and `strip` are parameters. `@Library` and stage names are searched in the same cleaned text and reported as found.
- `report.py`, `_kebab` and the `DeepCopy` helpers of the API types: easy, or display only. Terraform, Tekton, Argo, Helm, Groovy and Backstage files are run by other systems.
