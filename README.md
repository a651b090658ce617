# Facelets view-handling strategy: a verified model

This project models the core of `FaceletViewHandlingStrategy`, the Mojarra
(Jakarta Faces) view-declaration-language strategy for Facelets pages, and
proves properties of the model. It covers six parts of that class:

- **View mappings** (`view_mappings.dfy`). How the `FaceletsViewMappings` option is parsed into
  extension and prefix arrays, whether the strategy handles a view id, and
  how a view id becomes an implicit navigation outcome.
- **Resource-library contracts** (`contract_resolution.dfy`). Which contract list applies to a view id:
  an exact pattern, else the longest `prefix*` pattern, else the `*` entry.
- **Dynamic-action replay** (`dynamic_replay.dfy`, over the component tree of
  `component_tree.dfy`). The recorded ADD and REMOVE actions are re-applied to
  a rebuilt tree, using the dynamic-components map and the
  `DYNAMIC_COMPONENT` index attribute.
- **Initial-state marking** (`initial_state.dfy`). `markInitialState` and
  `markInitialStateIfNotMarked` over the tree.
- **The `buildView` protocol** (`build_view.dfy`). Which steps run, in which
  order, under which flags, for a first build and for the rebuild of a
  populated view.
- **Composite-component retargeting.**
  - `retarget_attached.dfy`: attached-object handlers are matched to the
    targets a composite declares, including the recursion into nested
    composites.
  - `retarget_methods.dfy`, `method_metadata.dfy`, `method_signature.dfy`:
    method-expression attributes are retargeted. This covers the metadata
    iterator, value precedence, required-attribute errors, handler dispatch
    and the parsing of the `method-signature` text.
- **Response headers** (`response_headers.dfy`). The precedence of the
  response character encoding and content type.

Supporting modules:

- `wrappers.dfy` has `Option` and `Outcome`.
- `java_strings.dfy` models the `java.lang.String` operations the core uses:
  `trim`, `indexOf`, `lastIndexOf`, `startsWith`, `endsWith` and
  single-character `split`.

The component tree is an arena held by one object, `ComponentTree.Tree`:

- A node handle stands for a component's object identity.
- Per node, the tree holds the ordered children, the facet map, the attribute
  map, the client id and the local id.
- The tree holds the sets of transient nodes and of initial-state-marked
  nodes.
- Each attached node has a parent entry.

The child and facet operations follow the component collections of the
component API: adding a node first removes it from wherever it was.
`Tree.Valid()` is the invariant every operation keeps: a node sits in at most
one slot, and the parent map names the slot's owner.

Some things are parameters:

- the flow-definition suffix and the configured Facelets suffixes;
- the request, session and attribute values the header decisions read;
- the iteration order of the contract map;
- the table of loadable types that stands for `Util.getTypeFromString`;
- whether `facelet.apply` throws.

Some of the code's behaviour is easy to misread from the method names and
comments. The model follows the code:

- `MethodMetadataIterator.shouldSkip` never skips an attribute whose name or
  target attribute name is special (`action`, `actionListener`, `validator`,
  `valueChangeListener`). Only for other attributes does a declared type or a
  missing method signature cause a skip (1304-1305).
- `retargetMethodExpressions` clears the value expression under the *target*
  attribute name when one is declared (`attrName` is reassigned at 650-652
  before the clear at 693). It does not clear it under the attribute's own
  name.
- The first build re-enables view-modification tracking inside the `try`
  block (355), not in a `finally`. If `apply` or the replay throws, tracking
  stays off and the view is not marked populated.
- Rebuilding an already populated view is not a no-op. It is the reapply
  path: `apply`, the replay of the dynamic actions, and
  `markInitialStateIfNotMarked`.
- Neither `markInitialState(component)` nor `markInitialStateIfNotMarked`
  skips a subtree that is already marked.
  - `markInitialState(component)` marks every non-transient node it reaches.
  - `markInitialStateIfNotMarked` only avoids re-marking a node; it still
    descends below it.
- The arbitrary handler's signature parse is not always non-fatal. A return
  type that does not load throws a `FacesException` (1598-1602). Only a
  missing return type or a parameter type that does not load is logged and
  skipped.
- A replayed action whose target cannot be resolved is not always skipped.
  - A REMOVE whose located component has no parent (the view root) fails with
    a null dereference (1836-1838).
  - An ADD whose remembered index is below -1 fails in
    `List.add(int, E)` (1815).

## Model

Every path is `impl/src/main/java/com/sun/faces/application/view/FaceletViewHandlingStrategy.java`.

| member | source | states |
|---|---|---|
| ViewMappings.InitializeMappings | impl/src/main/java/com/sun/faces/application/view/FaceletViewHandlingStrategy.java:845-875 | With no option or an empty one, both arrays stay unset. Otherwise the extensions and the prefixes are exactly those contributed by the `;`-separated entries, in entry order. |
| ViewMappings.ClassifyExtension | impl/src/main/java/com/sun/faces/application/view/FaceletViewHandlingStrategy.java:856-863 | A trimmed entry contributes extension `e` iff it is `*` followed by a non-empty `e`. |
| ViewMappings.ClassifyPrefix | impl/src/main/java/com/sun/faces/application/view/FaceletViewHandlingStrategy.java:856-866 | A trimmed entry contributes prefix `p` iff it is a non-empty `p` that does not start with `*`, followed by `*`. Entries of length at most 1 contribute nothing. |
| ViewMappings.ExtensionsOfMembership | impl/src/main/java/com/sun/faces/application/view/FaceletViewHandlingStrategy.java:855-870 | A string is in the extensions array iff some entry was classified as that extension. |
| ViewMappings.PrefixesOfMembership | impl/src/main/java/com/sun/faces/application/view/FaceletViewHandlingStrategy.java:855-873 | A string is in the prefixes array iff some entry was classified as that prefix. |
| ViewMappings.FirstSuffixOf | impl/src/main/java/com/sun/faces/application/view/FaceletViewHandlingStrategy.java:1898-1907 | The suffix found is one of those searched and ends the view id, and no suffix searched before it ends the view id: it is the first match. None is found iff no searched suffix ends the view id. |
| ViewMappings.FirstPrefixOf | impl/src/main/java/com/sun/faces/application/view/FaceletViewHandlingStrategy.java:1977-1987 | The prefix found is one of those searched and starts the view id, and no prefix searched before it starts the view id: it is the first match. None is found iff no searched prefix starts the view id. |
| ViewMappings.HandlesByPrefixOrSuffix | impl/src/main/java/com/sun/faces/application/view/FaceletViewHandlingStrategy.java:1147-1175 | The flow-definition suffix is always handled. With no mapping arrays, a view id is handled iff it ends with a configured Facelets suffix or `.xhtml`. Otherwise it is handled iff some extension ends it or some prefix starts it. |
| ViewMappings.GetConfiguredSuffix | impl/src/main/java/com/sun/faces/application/view/FaceletViewHandlingStrategy.java:1945-1975 | A suffix returned always ends the view id. An id ending in the flow-definition suffix gets that suffix. Otherwise, with extension or prefix mappings, it gets the first extension it ends with, or none. With neither, it gets the first configured Facelets suffix it ends with, else `.xhtml` exactly when it ends with `.xhtml`. |
| ViewMappings.GetConfiguredPrefix | impl/src/main/java/com/sun/faces/application/view/FaceletViewHandlingStrategy.java:1977-1987 | A prefix returned always starts the view id. |
| ViewMappings.ToImplicitOutcome | impl/src/main/java/com/sun/faces/application/view/FaceletViewHandlingStrategy.java:1928-1943 | The outcome followed by the configured suffix is the view id. Without a suffix, the configured prefix followed by the outcome is the view id. With neither, the outcome is the view id unchanged. |
| ViewMappings.HandledIffAffix | impl/src/main/java/com/sun/faces/application/view/FaceletViewHandlingStrategy.java:1939-1941 | A view id is handled iff a configured suffix or a configured prefix is found for it, so an implicit outcome always strips one of them. |
| ViewMappings.ExampleMappedPrefix | impl/src/main/java/com/sun/faces/application/view/FaceletViewHandlingStrategy.java:1934-1936 | With `.faces` and `/pages/*` configured, `/pages/a.xhtml` is handled, and its outcome is `a.xhtml`. |
| ContractResolution.CalculateResourceLibraryContracts | impl/src/main/java/com/sun/faces/application/view/FaceletViewHandlingStrategy.java:707-743 | The loop over the entries, in any iteration order, returns the order-independent resolution: empty without mappings; the exact pattern; else the longest matching prefix pattern; else the `*` entry; else null. |
| ContractResolution.ChosenPattern | impl/src/main/java/com/sun/faces/application/view/FaceletViewHandlingStrategy.java:715-735 | The pattern chosen is a key of the mappings. |
| ContractResolution.LongestMatchUnique | impl/src/main/java/com/sun/faces/application/view/FaceletViewHandlingStrategy.java:717-727 | Two longest matching prefix patterns are the same pattern, so ties in the iteration order cannot change the result. |
| ContractResolution.CatchAllNeverNull | impl/src/main/java/com/sun/faces/application/view/FaceletViewHandlingStrategy.java:738-740 | With a `*` entry the result is never null. |
| ContractResolution.NoMatchIsNull | impl/src/main/java/com/sun/faces/application/view/FaceletViewHandlingStrategy.java:734-742 | With no `*` entry and no matching pattern the result is null, not an empty list. |
| ContractResolution.ExactKeyWins | impl/src/main/java/com/sun/faces/application/view/FaceletViewHandlingStrategy.java:728-731 | A non-prefix key equal to the view id always decides the result. |
| ContractResolution.LongestPrefixExample | impl/src/main/java/com/sun/faces/application/view/FaceletViewHandlingStrategy.java:717-740 | `/admin/reports/*` beats `/admin/*` for `/admin/reports/q1`; an unmatched view falls back to `*`. |
| ComponentTree.Tree.Detach | impl/src/main/java/com/sun/faces/application/view/FaceletViewHandlingStrategy.java:1813-1815 | Taking a node out of its slot before it is added elsewhere removes it from its parent's children or facets and clears its parent; the tree stays valid. |
| ComponentTree.Tree.InsertChild | impl/src/main/java/com/sun/faces/application/view/FaceletViewHandlingStrategy.java:1815 | `getChildren().add(index, child)`: the child leaves its old slot and sits at the index among the parent's remaining children. |
| ComponentTree.Tree.AppendChild | impl/src/main/java/com/sun/faces/application/view/FaceletViewHandlingStrategy.java:1813 | `getChildren().add(child)`: the child leaves its old slot and becomes the parent's last child. |
| ComponentTree.Tree.RemoveChild | impl/src/main/java/com/sun/faces/application/view/FaceletViewHandlingStrategy.java:1840 | `getChildren().remove(child)`: the first occurrence leaves the list and loses its parent; facets are untouched. |
| ComponentTree.Tree.RemoveFacet | impl/src/main/java/com/sun/faces/application/view/FaceletViewHandlingStrategy.java:1803 | `getFacets().remove(name)`: the name leaves the facet map and its occupant loses its parent; children are untouched. |
| ComponentTree.Tree.PutFacet | impl/src/main/java/com/sun/faces/application/view/FaceletViewHandlingStrategy.java:1804 | `getFacets().put(name, child)`: the child leaves its old slot, becomes the named facet, and a previous occupant loses its parent. |
| ComponentTree.Tree.SetAttribute | impl/src/main/java/com/sun/faces/application/view/FaceletViewHandlingStrategy.java:1818 | One attribute of one node changes and nothing else does. |
| ComponentTree.Tree.SetLocalId | impl/src/main/java/com/sun/faces/application/view/FaceletViewHandlingStrategy.java:1811 | `setId`: one node's local id changes; its children, facets, parent and attributes are untouched. The stored client id is not recomputed (see "Left out"). |
| ComponentTree.Tree.Mark | impl/src/main/java/com/sun/faces/application/view/FaceletViewHandlingStrategy.java:1209 | `markInitialState()` on one component adds exactly that node to the marked set. |
| ComponentTree.Tree.FacetsAndChildren | impl/src/main/java/com/sun/faces/application/view/FaceletViewHandlingStrategy.java:1210 | The facets-and-children iteration yields exactly the node's facets and children, with the children last and in order. |
| ComponentTree.Tree.Locate | impl/src/main/java/com/sun/faces/application/view/FaceletViewHandlingStrategy.java:1731-1754 | The search answers a node at or below the start with the client id, or none exactly when no such node exists. |
| DynamicReplay.AddPlacement | impl/src/main/java/com/sun/faces/application/view/FaceletViewHandlingStrategy.java:1807-1816 | A remembered index of -1 or at least the child count appends. An index in range inserts at that index. An index below -1 is out of bounds. |
| DynamicReplay.RememberedIndex | impl/src/main/java/com/sun/faces/application/view/FaceletViewHandlingStrategy.java:1807-1810 | The `DYNAMIC_COMPONENT` attribute when present, else -1. |
| DynamicReplay.ReapplyDynamicRemove | impl/src/main/java/com/sun/faces/application/view/FaceletViewHandlingStrategy.java:1831-1843 | Covers a component not found and a component found. A component that is not found leaves the tree and the map unchanged. A component that is found is remembered under the recorded client id and is taken out of its parent's named facet or children; a parentless one raises the null-pointer failure with the tree unchanged. |
| DynamicReplay.RemoveLocated | impl/src/main/java/com/sun/faces/application/view/FaceletViewHandlingStrategy.java:1834-1841 | The effect once the component is located, as stated for `ReapplyDynamicRemove`; the tree stays valid and every remembered component stays in the tree. |
| DynamicReplay.LocateAddTargets | impl/src/main/java/com/sun/faces/application/view/FaceletViewHandlingStrategy.java:1790-1799 | The parent is searched from the root. The child is searched under the parent, else taken from the dynamic-components map, else missing. No parent means no child. |
| DynamicReplay.ReapplyDynamicAdd | impl/src/main/java/com/sun/faces/application/view/FaceletViewHandlingStrategy.java:1789-1823 | Without a parent or a child, nothing changes. With a facet name, the child replaces the occupant, which is left unattached. Otherwise the child gets the recorded id, sits at its remembered index or at the end, and its `DYNAMIC_COMPONENT` attribute equals its actual position. On success the map holds the child under the recorded client id. |
| DynamicReplay.AddLocated | impl/src/main/java/com/sun/faces/application/view/FaceletViewHandlingStrategy.java:1801-1821 | The effect once parent and child are known, as stated for `ReapplyDynamicAdd`; an out-of-bounds index fails after the id is set and changes nothing else. |
| DynamicReplay.AddFacetLocated | impl/src/main/java/com/sun/faces/application/view/FaceletViewHandlingStrategy.java:1801-1820 | The facet branch: the whole new tree is the old one with the child made the named facet (`FacetReplaced`), the previous occupant unattached, and the child remembered under the recorded client id; ids and attributes are untouched. It never fails. |
| DynamicReplay.AddChildLocated | impl/src/main/java/com/sun/faces/application/view/FaceletViewHandlingStrategy.java:1806-1820 | The children branch: the whole new tree and map as stated for `ReapplyDynamicAdd`, including the out-of-bounds failure that leaves only the new id behind. |
| DynamicReplay.PlaceDynamicFacet | impl/src/main/java/com/sun/faces/application/view/FaceletViewHandlingStrategy.java:1802-1805 | The new children, facets and parents are exactly `FacetReplaced` of the old ones: the child leaves its old slot and becomes the named facet, a different previous occupant loses its parent, and nothing else moves. Attributes and ids are untouched. |
| DynamicReplay.FacetReplacedComposes | impl/src/main/java/com/sun/faces/application/view/FaceletViewHandlingStrategy.java:1803-1804 | Removing the facet name and then putting the child under it gives exactly `FacetReplaced`. |
| DynamicReplay.FacetReplacedPlaces | impl/src/main/java/com/sun/faces/application/view/FaceletViewHandlingStrategy.java:1802-1805 | After `FacetReplaced` the tree stays linked, the child is the named facet and its parent is the given parent. |
| DynamicReplay.PlaceDynamicChild | impl/src/main/java/com/sun/faces/application/view/FaceletViewHandlingStrategy.java:1806-1818 | The child's id is set first. It fails iff the placement is out of bounds, and then the structure is unchanged. Otherwise the child is removed from its old slot and inserted at the chosen index. That index is then its position, and its `DYNAMIC_COMPONENT` attribute. |
| DynamicReplay.ReapplyDynamicActions | impl/src/main/java/com/sun/faces/application/view/FaceletViewHandlingStrategy.java:1768-1778 | A null log changes nothing. Otherwise the trace of states from the old tree to the new one replays the log record by record, in order (`ReplayTrace`), each step having the exact effect of `ReplayStep`. A failure stops the replay at that record, which is a REMOVE with a null parent or an ADD with a bad index. A log with no ADD or REMOVE records changes nothing. |
| DynamicReplay.ReplayLog | impl/src/main/java/com/sun/faces/application/view/FaceletViewHandlingStrategy.java:1771-1777 | The loop: the trace starts at the old state and ends at the new one, every record before the last one replayed passed, and `applied` counts the records that passed. |
| DynamicReplay.ReplayNext | impl/src/main/java/com/sun/faces/application/view/FaceletViewHandlingStrategy.java:1772-1777 | One iteration extends the trace by exactly one `ReplayStep`; a record with any other action changes nothing. |
| DynamicReplay.ReplayRecord | impl/src/main/java/com/sun/faces/application/view/FaceletViewHandlingStrategy.java:1773-1778 | The new state is exactly `ReplayStep` of the old one: a REMOVE record has the effect `RemoveStep` states on the component located by client id; an ADD record has the effect `AddStep` states on the located parent and child; any other action changes nothing. Only a REMOVE can fail with a null parent and only an ADD with a bad index. |
| DynamicReplay.PassedTraceStep | impl/src/main/java/com/sun/faces/application/view/FaceletViewHandlingStrategy.java:1771-1777 | In a replay where every record passed, record `j` takes state `j` to state `j + 1`. |
| DynamicReplay.NoActionsNoChange | impl/src/main/java/com/sun/faces/application/view/FaceletViewHandlingStrategy.java:1773-1777 | A log with no ADD or REMOVE records passes and ends where it started. |
| DynamicReplay.ReplayFailureKind | impl/src/main/java/com/sun/faces/application/view/FaceletViewHandlingStrategy.java:1773-1777 | A failed replay stopped at a REMOVE with a null parent or at an ADD with a bad index. |
| DynamicReplay.RemoveThenAddRestores | impl/src/main/java/com/sun/faces/application/view/FaceletViewHandlingStrategy.java:1789-1843 | A REMOVE of a child followed by the ADD that recorded it puts the child back under the recorded parent at its remembered index, unless that index is below -1. |
| InitialState.MarkInitialState | impl/src/main/java/com/sun/faces/application/view/FaceletViewHandlingStrategy.java:1208-1216 | The marked set grows by exactly the nodes reachable from the component through non-transient facets and children. |
| InitialState.MarkedExactly | impl/src/main/java/com/sun/faces/application/view/FaceletViewHandlingStrategy.java:1208-1216 | Those bounds determine the new marked set: the old one plus the non-transient reach. |
| InitialState.MarkInitialStateIfNotMarked | impl/src/main/java/com/sun/faces/application/view/FaceletViewHandlingStrategy.java:1992-2002 | The marked set grows by exactly the visited nodes (the non-transient node and everything below it through non-transient nodes) that carry no `DYNAMIC_COMPONENT` attribute. |
| InitialState.IfNotMarkedExactly | impl/src/main/java/com/sun/faces/application/view/FaceletViewHandlingStrategy.java:1992-2002 | Those bounds determine the new marked set: the old one plus the visited non-dynamic nodes. |
| InitialState.IfNotMarkedCovered | impl/src/main/java/com/sun/faces/application/view/FaceletViewHandlingStrategy.java:1993-2000 | Marking the node itself (unless dynamic) and every facet and child covers every node the traversal should mark. |
| InitialState.MarkInitialStateIfNotMarkedAgain | impl/src/main/java/com/sun/faces/application/view/FaceletViewHandlingStrategy.java:1992-2002 | Idempotence: run again on a tree it has already marked, it changes nothing. |
| InitialState.IfNotMarkedSkips | impl/src/main/java/com/sun/faces/application/view/FaceletViewHandlingStrategy.java:1993-1994 | A node marked by `markInitialStateIfNotMarked` is never transient and never carries `DYNAMIC_COMPONENT`. |
| InitialState.VisitReachEndsVisible | impl/src/main/java/com/sun/faces/application/view/FaceletViewHandlingStrategy.java:1993 | The traversal never enters a transient node. |
| InitialState.VisitReachIsMarkReach | impl/src/main/java/com/sun/faces/application/view/FaceletViewHandlingStrategy.java:1992-2002 | Every node `markInitialStateIfNotMarked` visits is also reached by `markInitialState`. |
| InitialState.MarkReachIsReach | impl/src/main/java/com/sun/faces/application/view/FaceletViewHandlingStrategy.java:1208-1216 | `markInitialState` reaches only nodes of the component's subtree. |
| InitialState.MarkReachSkipsTransient | impl/src/main/java/com/sun/faces/application/view/FaceletViewHandlingStrategy.java:1212-1213 | Every node `markInitialState` reaches below the component is non-transient. |
| InitialState.MarkReachInNodes | impl/src/main/java/com/sun/faces/application/view/FaceletViewHandlingStrategy.java:1210-1214 | Every node reached belongs to the tree. |
| BuildView.BuildView | impl/src/main/java/com/sun/faces/application/view/FaceletViewHandlingStrategy.java:294-363 | A populated view takes the rebuild path and any other view the first-build path, as stated for `RebuildPopulated` and `BuildFirst`. Wherever the replay runs, the new tree and remembered dynamic components are those `reapplyDynamicActions` produces from the old ones (`ReplayEnded`), and a failed replay is reported with its cause. The tree stays valid. |
| BuildView.RebuildPopulated | impl/src/main/java/com/sun/faces/application/view/FaceletViewHandlingStrategy.java:297-312 | First apply, then the replay unless apply threw, then under partial state saving the if-not-marked marking unless something threw. All steps run with tracking off. Tracking is back on afterwards whatever happened. `IS_BUILDING_INITIAL_STATE` is unchanged. If apply threw, the tree is untouched. Otherwise the new tree is exactly the end of a `ReplayTrace` of the dynamic-action log from the old tree, or the old tree when there is no log. The build passes iff that replay passes, and fails with the replay's error otherwise. |
| BuildView.RebuildUntracked | impl/src/main/java/com/sun/faces/application/view/FaceletViewHandlingStrategy.java:301-307 | The `try` body of the rebuild: the same steps, marking and replay effect (`ReplayEnded`) with tracking left off. |
| BuildView.BuildFirst | impl/src/main/java/com/sun/faces/application/view/FaceletViewHandlingStrategy.java:315-362 | The view ends populated iff nothing threw, and tracking ends on iff nothing threw. The building flag always ends cleared. The replay runs only without partial state saving, and then the new tree is exactly the end of a `ReplayTrace` of the log from the old tree (`ReplayEnded`), with the build failing iff the replay fails. With partial state saving, or when apply threw, the tree is untouched. `markInitialState` runs from a non-transient root, with tracking on and the building flag set. |
| BuildView.PopulateView | impl/src/main/java/com/sun/faces/application/view/FaceletViewHandlingStrategy.java:327-358 | Apply runs with the building flag set and tracking off. The replay runs only without partial state saving, with the effect and outcome of `reapplyDynamicActions` (`ReplayEnded`). Tracking is on iff nothing threw. The building flag is removed in every case. |
| BuildView.RunReplay | impl/src/main/java/com/sun/faces/application/view/FaceletViewHandlingStrategy.java:304 | The replay's new tree and remembered components are those of `ReapplyDynamicActions`: a `ReplayTrace` of the log from the old state, or no change without a log. It passes iff that replay passes, and otherwise fails with `ReplayFailed` of the replay's error. |
| BuildView.ReplayThenMark | impl/src/main/java/com/sun/faces/application/view/FaceletViewHandlingStrategy.java:304-307 | The replay as for `RunReplay`, then under partial state saving, if it passed, the if-not-marked marking from the root. The marking adds exactly the visited non-dynamic nodes and changes no structure. |
| BuildView.MarkReplayed | impl/src/main/java/com/sun/faces/application/view/FaceletViewHandlingStrategy.java:305-307 | The marking after a rebuild's replay changes only the marks: the snapshot of tree and remembered components is the one the replay left, and exactly the visited non-dynamic nodes are added to the marks. |
| BuildView.FinishFirstBuild | impl/src/main/java/com/sun/faces/application/view/FaceletViewHandlingStrategy.java:360-362 | The marking step, then the view is marked populated. The structure is unchanged. |
| BuildView.MarkRootInitialState | impl/src/main/java/com/sun/faces/application/view/FaceletViewHandlingStrategy.java:1194-1206 | Under partial state saving, a non-transient root has its non-transient reach marked with the building flag set. The flag is removed afterwards. Without partial state saving nothing happens. |
| BuildView.MarkView | impl/src/main/java/com/sun/faces/application/view/FaceletViewHandlingStrategy.java:1200 | Marking from the root adds exactly the root's non-transient reach. |
| BuildView.MarkViewIfNotMarked | impl/src/main/java/com/sun/faces/application/view/FaceletViewHandlingStrategy.java:306 | The if-not-marked marking from the root adds exactly the visited non-dynamic nodes. |
| MethodMetadata.ShouldSkip | impl/src/main/java/com/sun/faces/application/view/FaceletViewHandlingStrategy.java:1298-1308 | An attribute whose name or target attribute name is special is never skipped. Any other attribute is kept iff it has a method signature and declares no type. |
| MethodMetadata.MethodAttributesMembers | impl/src/main/java/com/sun/faces/application/view/FaceletViewHandlingStrategy.java:1298-1308 | The iteration yields a descriptor iff it is one of the bean's descriptors and `shouldSkip` is false for it. |
| MethodMetadata.NextIndex | impl/src/main/java/com/sun/faces/application/view/FaceletViewHandlingStrategy.java:1264-1282 | The next candidate is the first descriptor at or after the index that is not skipped; everything between is skipped. |
| MethodMetadata.SkipToNext | impl/src/main/java/com/sun/faces/application/view/FaceletViewHandlingStrategy.java:1267-1273 | Skipped descriptors contribute nothing to the iteration. |
| MethodMetadata.Targets | impl/src/main/java/com/sun/faces/application/view/FaceletViewHandlingStrategy.java:1345-1355 | Targets exist iff the "targets" feature does, and no target id contains a space. |
| MethodMetadata.MethodMetadataIterator.constructor | impl/src/main/java/com/sun/faces/application/view/FaceletViewHandlingStrategy.java:1243-1251 | The index starts at 0 for a non-empty array, else -1. |
| MethodMetadata.MethodMetadataIterator.HasNext | impl/src/main/java/com/sun/faces/application/view/FaceletViewHandlingStrategy.java:1263-1286 | Moves the index to the next descriptor that is not skipped and answers true iff there is one. With none left, or with an index of -1, it answers false and leaves the index. |
| MethodMetadata.MethodMetadataIterator.Next | impl/src/main/java/com/sun/faces/application/view/FaceletViewHandlingStrategy.java:1289-1291 | Yields the descriptor at the index and increments it; out of range the access fails. |
| MethodMetadata.CollectMethodAttributes | impl/src/main/java/com/sun/faces/application/view/FaceletViewHandlingStrategy.java:618-619 | The `for` loop over the iterator sees exactly the descriptors that are not skipped, in order. |
| MethodSignature.ResolveParameters | impl/src/main/java/com/sun/faces/application/view/FaceletViewHandlingStrategy.java:1617-1633 | Succeeds iff every parameter type loads, and then yields the loaded types in order. |
| MethodSignature.ParseSignature | impl/src/main/java/com/sun/faces/application/view/FaceletViewHandlingStrategy.java:1588-1640 | The handler's steps yield the signature's meaning. No space means no return type. An unloadable return type is a failure. An unloadable parameter binds nothing. Otherwise the result is the loaded types. |
| MethodSignature.ReturnTypeName | impl/src/main/java/com/sun/faces/application/view/FaceletViewHandlingStrategy.java:1595-1599 | The return type name holds no space. |
| MethodSignature.RenderParse | impl/src/main/java/com/sun/faces/application/view/FaceletViewHandlingStrategy.java:1588-1640 | Round trip: for a signature written `ret name(p1,...,pn)`, with the names joined by bare commas, the parse reads back `ret` as the return type and `p1..pn` as the parameters (none for `()`). |
| MethodSignature.ParsingRendered | impl/src/main/java/com/sun/faces/application/view/FaceletViewHandlingStrategy.java:1595-1640 | Such a signature whose type names all load parses to exactly those types, in order. |
| MethodSignature.PiecesOfJoin | impl/src/main/java/com/sun/faces/application/view/FaceletViewHandlingStrategy.java:1617 | Splitting a joined list at a separator none of the parts contains gives the parts back. |
| MethodSignature.RenderParseSpaced | impl/src/main/java/com/sun/faces/application/view/FaceletViewHandlingStrategy.java:1588-1640 | The same round trip for the usual spelling `ret name(p1, p2, ..., pn)`, with a space after each comma. |
| MethodSignature.RenderParseWritten | impl/src/main/java/com/sun/faces/application/view/FaceletViewHandlingStrategy.java:1588-1640 | The same round trip for any spelling whose parameter pieces trim to the names and hold no comma or `)`. |
| MethodSignature.SplitJoined | impl/src/main/java/com/sun/faces/application/view/FaceletViewHandlingStrategy.java:1617 | Comma-joined non-empty pieces are empty text iff there are none, and splitting at commas gives them back. |
| MethodSignature.WrittenSplit | impl/src/main/java/com/sun/faces/application/view/FaceletViewHandlingStrategy.java:1615-1622 | The parameter text of written pieces is empty iff there are no names, and its trimmed comma split is the names. |
| RetargetMethods.RegisteredHandler | impl/src/main/java/com/sun/faces/application/view/FaceletViewHandlingStrategy.java:1412-1432 | A handler is registered under a name iff the name is special, and it is the handler whose attribute is that name. |
| RetargetMethods.Retarget | impl/src/main/java/com/sun/faces/application/view/FaceletViewHandlingStrategy.java:1456-1566 | A handler binds at most once, only on success, on the component it was given. It never raises the missing-attribute or target-not-found errors. |
| RetargetMethods.RetargetArbitrary | impl/src/main/java/com/sun/faces/application/view/FaceletViewHandlingStrategy.java:1571-1653 | Exactly one method expression is stored, under the attribute's own name with the consumer's text, iff the value is an expression, a signature is present, a target is given and the signature parses. |
| RetargetMethods.RetargetEachUpTo | impl/src/main/java/com/sun/faces/application/view/FaceletViewHandlingStrategy.java:657-665 | With explicit targets, each id up to the first missing one is bound, in order. That missing id is the error; with none missing the loop succeeds. |
| RetargetMethods.RetargetEachOnTargets | impl/src/main/java/com/sun/faces/application/view/FaceletViewHandlingStrategy.java:657-665 | Every binding of the targets loop is on an inner component named in the targets. |
| RetargetMethods.RetargetEachNotMissing | impl/src/main/java/com/sun/faces/application/view/FaceletViewHandlingStrategy.java:657-665 | The targets loop never reports a missing required attribute. |
| RetargetMethods.MissingRequiredExactly | impl/src/main/java/com/sun/faces/application/view/FaceletViewHandlingStrategy.java:624-646 | An attribute fails as missing iff it has no value expression, no attribute and no default, and is required. Optional and valueless, it is passed over with nothing changed. |
| RetargetMethods.ExplicitTargetsOnly | impl/src/main/java/com/sun/faces/application/view/FaceletViewHandlingStrategy.java:654-665 | With targets and a registered handler, every new binding is on one of the named inner components. |
| RetargetMethods.RetargetAllKeeps | impl/src/main/java/com/sun/faces/application/view/FaceletViewHandlingStrategy.java:619-694 | The loop keeps every earlier binding as a prefix of the new ones and only ever removes value expressions. |
| RetargetMethods.TopLevelComponent.ApplyHandler | impl/src/main/java/com/sun/faces/application/view/FaceletViewHandlingStrategy.java:676 | One handler call appends exactly the handler's bindings and returns its outcome. |
| RetargetMethods.TopLevelComponent.ApplyToTargets | impl/src/main/java/com/sun/faces/application/view/FaceletViewHandlingStrategy.java:657-665 | The targets loop appends exactly the specified bindings and returns the specified outcome. |
| RetargetMethods.TopLevelComponent.RetargetAttributeStep | impl/src/main/java/com/sun/faces/application/view/FaceletViewHandlingStrategy.java:621-693 | One attribute moves the composite from its old state to the state that value precedence, dispatch and clearing under the retargeted name specify. |
| RetargetMethods.TopLevelComponent.RetargetMethodExpressions | impl/src/main/java/com/sun/faces/application/view/FaceletViewHandlingStrategy.java:606-695 | Without bean info nothing changes. Otherwise the attributes that are not skipped are processed in order, stopping at the first failure, as specified. |
| RetargetAttached.Matching | impl/src/main/java/com/sun/faces/application/view/FaceletViewHandlingStrategy.java:569-599 | The targets a handler matches are targets it matches, and there are none iff no target matches. |
| RetargetAttached.FirstMatch | impl/src/main/java/com/sun/faces/application/view/FaceletViewHandlingStrategy.java:562-575 | The first matching target found is the first target that matches. |
| RetargetAttached.ChosenIsFirst | impl/src/main/java/com/sun/faces/application/view/FaceletViewHandlingStrategy.java:574 | A handler other than a behaviour is applied through its first matching target only (`break`). |
| RetargetAttached.AttachedFlat | impl/src/main/java/com/sun/faces/application/view/FaceletViewHandlingStrategy.java:527-603 | When no target names a composite, the run applies each handler, in order, to every component of its chosen targets, and nothing else. |
| RetargetAttached.HandlersFlat | impl/src/main/java/com/sun/faces/application/view/FaceletViewHandlingStrategy.java:554-602 | The same for the handler loop from any earlier state. |
| RetargetAttached.TargetsFlat | impl/src/main/java/com/sun/faces/application/view/FaceletViewHandlingStrategy.java:562-601 | The target loop for one handler applies it to the components of exactly its chosen targets. |
| RetargetAttached.MatchedTargetsFlat | impl/src/main/java/com/sun/faces/application/view/FaceletViewHandlingStrategy.java:570-598 | The same when the first target matches. A behaviour continues to the remaining targets; any other handler stops. |
| RetargetAttached.ComponentsFlat | impl/src/main/java/com/sun/faces/application/view/FaceletViewHandlingStrategy.java:571-573 | A matching target's plain components each get the handler applied, in order. |
| RetargetAttached.AttachedObjects.RetargetAttachedObjects | impl/src/main/java/com/sun/faces/application/view/FaceletViewHandlingStrategy.java:527-603 | The nested loops, with `break`, leave exactly the handler lists, applications and failure the recursive specification gives. |
| RetargetAttached.AttachedObjects.RetargetComponents | impl/src/main/java/com/sun/faces/application/view/FaceletViewHandlingStrategy.java:571-573 | The loop over a matching target's components follows the specification. |
| RetargetAttached.HandlerCompositeFlat | impl/src/main/java/com/sun/faces/application/view/FaceletViewHandlingStrategy.java:1218-1223 | A composite target whose own targets name no composite: the handler is appended to its stored list, and that whole list is applied, in order, over the composite's targets. |
| RetargetAttached.HandlerListless | impl/src/main/java/com/sun/faces/application/view/FaceletViewHandlingStrategy.java:1218-1223 | A composite target with no target list: the handler is appended to its stored list and the run breaks off at that composite. |
| RetargetAttached.AttachedBlamed | impl/src/main/java/com/sun/faces/application/view/FaceletViewHandlingStrategy.java:527-603 | A run breaks off only at a composite it reached that has no target list, and never clears an earlier failure. |
| RetargetAttached.AttachedObjects.RetargetHandler | impl/src/main/java/com/sun/faces/application/view/FaceletViewHandlingStrategy.java:1218-1228 | A composite target appends the handler to its own list and has that list retargeted; any other component gets the handler applied. |
| ResponseHeaders.GetResponseEncoding | impl/src/main/java/com/sun/faces/application/view/FaceletViewHandlingStrategy.java:976-1021 | The encoding is one of the candidates (the `facelets.Encoding` value, the request's, the session's, the original, or UTF-8), and the session is written only when one exists. |
| ResponseHeaders.EncodingPrecedence | impl/src/main/java/com/sun/faces/application/view/FaceletViewHandlingStrategy.java:976-1021 | The encoding is chosen in this order: `facelets.Encoding` (even null, which then falls back), then the request, then the session, then a non-empty original, then UTF-8. |
| ResponseHeaders.EncodingSessionWrite | impl/src/main/java/com/sun/faces/application/view/FaceletViewHandlingStrategy.java:997-1006 | The session is written iff the attribute is present and a session exists, and it receives the attribute's value. |
| ResponseHeaders.EncodingNonEmptyFromDefaults | impl/src/main/java/com/sun/faces/application/view/FaceletViewHandlingStrategy.java:1008-1018 | With non-empty configured encodings the result is never empty. |
| ResponseHeaders.GetResponseContentType | impl/src/main/java/com/sun/faces/application/view/FaceletViewHandlingStrategy.java:1028-1047 | A `facelets.ContentType` attribute wins, and falls back to `text/html` when it holds null. Without the attribute the original is used, or `text/html` when that is null. |

## Left out

- I/O, rendering, writers, HTTP 404 handling, session creation, logging and
  the component-metadata cache are not part of this model.
- `facelet.apply` is an opaque step that succeeds or throws. The tree it
  leaves is the tree passed in, so the template's own effect on the tree is
  not modelled.
- The document-type and XML-declaration capture (332-349), the
  `PostAddToViewEvent` publication (359) and `setViewId` are not part of this
  model.
- `StateContext` is reduced to its tracking flag, the dynamic-components map
  and the action log. Its own recording of changes while tracking is on is
  not part of this model.
- Creating a method expression is expression-language work. A binding records
  the expression text and the parsed signature instead.
- The typed handlers' casts to `ActionSource2` or `EditableValueHolder` are not
  checked, so a component of the wrong type is not modelled.
- The error-message texts are not modelled.
- The attached-object handlers' `applyAttachedObject` is recorded as an
  application. Its effect on the component is not modelled.
- The stored handler list of an inner composite is a map entry of the model.
  It does not model sharing the same list object with the composite's
  attributes.
- A null `getFor()` on a non-behaviour handler would throw. The model treats
  the "for" name as always present.
- `locateComponentByClientId` is one search by client id. The addressed lookup
  (`invokeOnComponent`) is a faster first try that finds the same component
  and is not modelled separately.
- ComponentTree.Tree.Locate: states that the node found carries the client id
  and lies at or below the start, and that none is found only when no such
  node exists. It does not state which node is found when several carry the
  same client id.
- The tree traversals (search, the two markings) go at most as many levels
  deep as the tree has nodes. That covers every node of an acyclic tree;
  acyclicity itself is not an invariant of the model.
- The order of facets within a component's facet map is not modelled.
  `FacetsAndChildren` puts the facets first, in an unspecified order.
- `Util.split` with the application map is modelled as Java's `String.split`
  on one character, trailing empty strings dropped.
- The contract map's values are never null lists in the model. A null value
  would also fall back to `*`.
- MethodSignature.ReturnTypeName: states only that the name holds no space.
  What it is, the trimmed text before the first space, is stated by
  `RenderParse` for rendered signatures.
- The `UnloadableReturnType` error names the trimmed type name, where the
  source message uses the untrimmed one.
- MethodMetadata.ShouldSkip: a descriptor carries one `methodSignature`
  option, so a `method-signature` feature that is present but evaluates to
  null counts as absent. The source (1305) tests the feature itself, so it
  keeps such an attribute, and the retargeting that follows then fails on
  the null signature (1588-1590).
- ViewMappings.GetConfiguredPrefix: states only that the prefix starts the
  view id. The first such prefix is chosen, by `FirstPrefixOf`.
- RetargetMethods.Retarget: states the shape of a typed handler's binding. It
  does not state which of the four component methods is called, because that
  is recorded only as the handler kind.
- Client ids are stored per node, not derived from the local ids of the
  node and its naming-container ancestors. `setId` (1811) and moving a node
  (1813-1815) do not recompute the stored client id, and neither does
  `getClientId()` (1817). Lookups by client id after a replay therefore see
  the ids the nodes had before it.
- `getViews`, `viewExists`, `restoreView`, `createView`,
  `getComponentMetadata` and `createComponent` are not part of this model.
  They call the resource resolver, the state-saving layer or the Facelet
  factory, none of which is modelled.
