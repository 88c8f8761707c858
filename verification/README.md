# A verified model of the collections, the Wisp compiler and the small passes

This project models, and proves properties of, the parts of the repository that carry
its data structures and its transformations:

- the standard library's collections (`wap/stdlib_test.mbt`): the 32-way trie vector and
  the hash array mapped trie, as values and in the heap; their transient builders, with
  the ownership token that lets them write in place; the insertion-ordered store over
  both; structural equality and hashing; runtime-defined records; and UTF-8 strings;
- the Wisp language: closure conversion with lexical evaluation as its meaning, the
  precedence reader, and the metered runtime with its own ordered maps;
- the alternative pretty printer's passes (tree, prune, memoised lowering), and the
  table of syntax messages keyed by parser stacks.

`dafny verify dfyconfig.toml` checks everything.

## How it is laid out

| files | what they hold |
|---|---|
| `Arithmetic`, `Bits`, `Sequences`, `Outcomes`, `Ownership`, `Unordered` | powers of two and shifts, 32-bit words, concatenation, traps and options, the builder's token, matching without order |
| `TrieVector`, `VectorHeap` | the vector as a value; the same in the heap, with its builder |
| `Hamt`, `HashMap`, `HamtHeap` | trie nodes as values; the map around them; the builder in the heap |
| `OrderedStore`, `StoreHeap` | the insertion-ordered store and its builder |
| `StructuralValues`, `StructuralForms`, `ValueKeys`, `Records`, `Utf8` | equality and hashing, the normal forms behind equality, values as keys, records, strings |
| `WispArithmetic`, `WispOperators` | 64-bit sums, products and quotients; the runtime's operators and builtins by number and by name |
| `WispTerm`, `WispMachine`, `WispCode`, `WispCorrect`, `WispProgram`, `WispBlank`, `WispGenerator` | terms and free names; lexical evaluation; emitted code and the generator; the simulation; whole programs; the blank; the generator as a class, which agrees with the functions of `WispCode` |
| `WispReader`, `WispValues`, `WispForms`, `WispMeters`, `WispRuntime`, `WispMaps` | the reader; values and their normal forms; what each operation may take from the meters; the metered operations; ordered maps |
| `PrinterTree`, `PrinterPrune`, `PrinterLower`, `PrinterMemo`, `PrinterToDoc` | the three printing passes |
| `PrinterShow`, `PrinterSpelling` | what a document shows, and the spellings of a tree, each defined without the other; that lowered documents show exactly those |
| `ParserMessages` | the message table |

In the heap, a ghost set `F` names the frozen objects, those that persistent values may
reach. Nothing in `F` appears in any `modifies` clause, no frozen node carries an active
token, and what a builder owns is in the `repr` of its root.

## What the code does differently from what it is for

- Binding the null key in a hash map has no guard at the largest count, as binding any
  other key has: the count becomes negative (`HashMap.AssocLaw`, `HashMap.NullKeyOverflows`).
- `referenced` takes the pattern `_` to bind a name, and `pattern` binds none. A lambda
  that reads an outer `_` only under such a pattern does not capture it. It is refused,
  unless a path from `_` names a function or a record of the program; then it is accepted,
  and its code uses that in place of the outer `_`. Closure conversion is faithful for
  given declarations if and only if there is no such path (`WispTerm.CapturesAreNeeded`,
  `WispBlank.FaithfulExactly`).
- A store's slot numbers are kept in 31 bits. Past 2^30 slots a new key's number comes
  back negative, and the index no longer agrees with the entries (`OrderedStore.Assoc`, `OrderedStore.SlotsRunOut`).
- When a recorded parser stack is the end of a longer one with another message, `build`
  overwrites the entry that sends the walk deeper (`ParserMessages.FoundAsRecorded`).

## Model

| member | source | states |
|---|---|---|
| TrieVector.Get | wap/stdlib_test.mbt:1113-1161 | a lookup reads the element of the represented sequence at that index, through the tail or the trie, and finds nothing outside it |
| TrieVector.Push | wap/stdlib_test.mbt:1163-1185 | `push` appends one element and keeps the trie exactly full to the left of the tail; it traps only at the largest count |
| TrieVector.Assoc | wap/stdlib_test.mbt:1187-1211 | `assoc` replaces one element, or appends at the end, and traps for any other index |
| TrieVector.Pop | wap/stdlib_test.mbt:1218-1238 | `pop` drops the last element, whatever happens to the last leaf and the root, and traps only when empty |
| TrieVector.Peek | wap/stdlib_test.mbt:1213-1216 | `peek` gives the last element, or nothing when empty |
| TrieVector.Each | wap/stdlib_test.mbt:1240-1242 | `each` visits every index once, in order, with the element there |
| TrieVector.GrowRoot | wap/stdlib_test.mbt:1163-1185 | `(count >> 5) > (1 << shift)` holds exactly when there is no room, and then a new root over the old one and a path to the full tail represent the same sequence |
| TrieVector.PushLeaf | wap/stdlib_test.mbt:1163-1185 | while the root has room, the full tail becomes its next leaf |
| TrieVector.PopLeaf | wap/stdlib_test.mbt:1218-1238 | pulling the last leaf back as the tail keeps the vector well-formed: root collapse and all |
| TrieVector.LeafForFlatten | wap/stdlib_test.mbt:1113-1125 | following the digits of an index leads to the leaf that holds it |
| TrieVector.DoAssocFlatten | wap/stdlib_test.mbt:1104-1111 | copying the path to one element changes that element of the sequence and keeps the shape |
| TrieVector.PushTailFlatten | wap/stdlib_test.mbt:1092-1102 | hanging a leaf at the frontier appends its elements and keeps everything before it packed |
| TrieVector.PopTailFlatten | wap/stdlib_test.mbt:1127-1141 | removing the last leaf removes its elements and leaves no empty node behind |
| TrieVector.TailOffsetIs | wap/stdlib_test.mbt:1080-1083 | `tail_offset` is the number of elements in the trie, for every count the invariant allows |
| TrieVector.ShiftBound | wap/stdlib_test.mbt:1163-1185 | a well-formed vector is never deeper than its count allows: the shift stays small enough for 32-bit shifts |
| TrieVector.StepRefines | wap/stdlib_test.mbt:1163-1238 | each operation does to the represented sequence what it should, and traps exactly when that operation on a sequence would |
| TrieVector.RunRefines | wap/stdlib_test.mbt:1163-1238 | every vector reached by any run of `push`, `assoc` and `pop` is well-formed and represents the sequence that the run describes |
| VectorHeap.EnsureNode | wap/stdlib_test.mbt:1258-1261 | a builder writes its own node, or a fresh copy that carries its token and stands for the same tree |
| VectorHeap.TDoAssoc | wap/stdlib_test.mbt:1288-1307 | writing one element in place reaches the tree `do_assoc` builds by copying, and writes only what the builder owns |
| VectorHeap.TPushTail | wap/stdlib_test.mbt:1270-1286 | hanging a leaf in place reaches the tree `push_tail` builds |
| VectorHeap.TPopTail | wap/stdlib_test.mbt:1309-1324 | dropping the last leaf in place reaches the tree `pop_tail` builds |
| VectorHeap.Transient.Push | wap/stdlib_test.mbt:1375-1395 | `t_push` has the effect of `push` on the value the builder stands for; the tail array handed over as a leaf is replaced by a fresh one |
| VectorHeap.Transient.Assoc | wap/stdlib_test.mbt:1397-1409 | `t_assoc` has the effect of `assoc`, and traps when inactive or out of range |
| VectorHeap.Transient.Pop | wap/stdlib_test.mbt:1411-1439 | `t_pop` has the effect of `pop`; the leaf pulled back as the tail is a copy |
| VectorHeap.Transient.Get | wap/stdlib_test.mbt:1353-1366 | `t_get` reads the represented sequence and traps when inactive |
| VectorHeap.Transient.Persistent | wap/stdlib_test.mbt:1441-1444 | `t_persistent` freezes exactly the value the builder stood for, and leaves the builder inactive, so that each later operation traps |
| VectorHeap.AsTransient | wap/stdlib_test.mbt:1338-1347 | a new builder stands for the vector it was made from and owns only fresh objects |
| VectorHeap.FreezeTree | wap/stdlib_test.mbt:1441-1444 | once its token is inactive a builder's tree is frozen as it stands |
| VectorHeap.VecGrows | wap/stdlib_test.mbt:1244-1251 | a persistent vector is not affected by freezing more objects |
| VectorHeap.VecGet | wap/stdlib_test.mbt:1149-1155 | reading a persistent vector in the heap reads its sequence |
| VectorHeap.VecPush | wap/stdlib_test.mbt:1163-1185 | `push` in the heap writes no object there was, and stands for the value-level `Push` |
| VectorHeap.VecAssoc | wap/stdlib_test.mbt:1187-1211 | `assoc` in the heap writes no object there was, and stands for the value-level `Assoc` |
| VectorHeap.VecPop | wap/stdlib_test.mbt:1218-1238 | `pop` in the heap writes no object there was, and stands for the value-level `Pop` |
| VectorHeap.Build | wap/stdlib_test.mbt:1326-1444 | any run of builder operations freezes to what the same run of persistent operations builds, traps where it would, and leaves every frozen object unchanged |
| Bits.MaskedCount | wap/stdlib_test.mbt:217-218 | counting the bits of a bitmap below one bit gives that bit's rank |
| Bits.MaskedTest | wap/stdlib_test.mbt:289-291 | masking with one bit tests it |
| Bits.AgreeStep | wap/stdlib_test.mbt:268-273 | two hashes that agree so far and take the same branch agree on five bits more |
| Bits.AgreeBound | wap/stdlib_test.mbt:268-273 | different hashes that agree so far still have bits to be told apart by: merging ends |
| Hamt.InsertBranch | wap/stdlib_test.mbt:227-236 | switching a bit on and inserting at its rank fills one of 32 branches and no other |
| Hamt.UpdateBranch | wap/stdlib_test.mbt:373-378 | writing at the rank of a bit replaces one branch and no other |
| Hamt.RemoveBranch | wap/stdlib_test.mbt:238-245 | switching a bit off and removing at its rank empties one branch and no other |
| Hamt.NodeGetFinds | wap/stdlib_test.mbt:279-312 | following the hash finds what a search of all pairs for an equal key would |
| Hamt.MergeTwoValid | wap/stdlib_test.mbt:259-277 | `merge_two` makes a valid node of exactly its two pairs, however deep their hashes part |
| Hamt.PromoteValid | wap/stdlib_test.mbt:314-341 | a bitmap node of sixteen becomes a valid array node with every pair in its place and the new one in its branch |
| Hamt.PackedFits | wap/stdlib_test.mbt:433-449 | an array node that would fall to eight children becomes a bitmap node of those eight, in their branches |
| Hamt.NodeAssocPuts | wap/stdlib_test.mbt:343-431 | `node_assoc` keeps a node valid and replaces the value of the pair with an equal key, or inserts one pair, reporting which |
| Hamt.CollisionAssocPuts | wap/stdlib_test.mbt:408-431 | a collision node grows, changes in place, or is pushed down until another hash parts from it |
| Hamt.NodeDissocCuts | wap/stdlib_test.mbt:451-517 | `node_dissoc` removes exactly the pair with an equal key, keeps what is left valid, and reports whether there was one |
| Hamt.CollisionDissocCuts | wap/stdlib_test.mbt:503-515 | a collision node of two shrinks to a node of one, and a larger one loses one pair |
| HashMap.GetFinds | wap/stdlib_test.mbt:546-551 | `get` of a non-null key finds what a search of the trie's pairs would |
| HashMap.AssocLaw | wap/stdlib_test.mbt:557-583 | `assoc` traps exactly for a non-null key in a full map; else it rebinds one key modulo `equal` and no other, and the result is valid, count and all, if and only if the null key was not one key too many |
| HashMap.DissocLaw | wap/stdlib_test.mbt:585-609 | `dissoc` unbinds one key modulo `equal` and no other, and the count follows |
| HashMap.NodeEach | wap/stdlib_test.mbt:519-538 | `node_each` meets every pair below a node once, in trie order |
| HashMap.Each | wap/stdlib_test.mbt:611-615 | `each` meets exactly the bindings that `get` finds, each once, `count` of them |
| HashMap.RunLaw | wap/stdlib_test.mbt:540-615 | whatever the run of `assoc` and `dissoc`, each key is bound as the operations on that key alone would leave it |
| HashMap.NullKeyOverflows | wap/stdlib_test.mbt:557-569 | a full map takes the null key without a trap, and its count becomes negative |
| HamtHeap.EnsureNode | wap/stdlib_test.mbt:639-656 | a builder writes its own node, or a fresh copy with its token and an array of its own |
| HamtHeap.NewMerge | wap/stdlib_test.mbt:259-277 | `merge_two` in the heap: fresh nodes without a token for the node `MergeTwo` describes |
| HamtHeap.Spread | wap/stdlib_test.mbt:729-733 | the call of the persistent `node_assoc` on an owned collision node builds its answer over that node without writing it |
| HamtHeap.NewPromoted | wap/stdlib_test.mbt:314-341 | `promote` moves the builder's children into a new node, with a new array, that shares nothing with any other |
| HamtHeap.NewPacked | wap/stdlib_test.mbt:795-800 | `pack_array` does the same for the children that stay, and they fill its array exactly |
| HamtHeap.NodeGetAt | wap/stdlib_test.mbt:279-312 | `node_get` on a builder's nodes finds what it would in the node they stand for |
| HamtHeap.TNodeAssoc | wap/stdlib_test.mbt:658-744 | `t_node_assoc` reaches in place the node that `node_assoc` builds by copying, and writes only what the builder alone can reach |
| HamtHeap.TNodeDissoc | wap/stdlib_test.mbt:746-822 | `t_node_dissoc` leaves in place the node that `node_dissoc` builds, and writes nothing when there is nothing to remove |
| HamtHeap.Transient.Count | wap/stdlib_test.mbt:835-837 | `t_count` is the count of the map the builder stands for, and traps when inactive |
| HamtHeap.Transient.Get | wap/stdlib_test.mbt:839-845 | `t_get` is `get` of the map the builder stands for, and traps when inactive |
| HamtHeap.Transient.Assoc | wap/stdlib_test.mbt:851-872 | `t_assoc` has the effect of `assoc`, with its trap at a full count and when inactive |
| HamtHeap.Transient.Dissoc | wap/stdlib_test.mbt:874-887 | `t_dissoc` has the effect of `dissoc`, and traps when inactive |
| HamtHeap.Transient.Persistent | wap/stdlib_test.mbt:889-899 | `t_persistent` freezes the map the builder stood for, nodes without a token included, and leaves the builder inactive |
| HamtHeap.Freeze | wap/stdlib_test.mbt:889-899 | once its token is inactive, a builder's tree is frozen as it stands |
| HamtHeap.FrozenGrows | wap/stdlib_test.mbt:634-638 | a persistent map's nodes stay as they are when more is frozen |
| HamtHeap.AsTransient | wap/stdlib_test.mbt:824-833 | a new builder shares every node of the map it was made from and owns none |
| HamtHeap.Build | wap/stdlib_test.mbt:617-899 | any run of builder operations freezes to what the same run of persistent operations reaches, traps where it would, and leaves every frozen object unchanged |
| OrderedStore.PairsDistinct | wap/stdlib_test.mbt:1564-1567 | the order of a store has no two equal keys |
| OrderedStore.LookupFinds | wap/stdlib_test.mbt:1799-1809 | what the index finds is what a search of the order would find, and its slot holds that key |
| OrderedStore.Get | wap/stdlib_test.mbt:1805-1810 | `store_get` finds the value bound in the order, and never traps |
| OrderedStore.Assoc | wap/stdlib_test.mbt:1848-1864 | a key that is there keeps its place and its entry's key, and a new key goes last; the index stays in agreement if and only if a new slot number fits in 31 bits |
| OrderedStore.FullStore | wap/stdlib_test.mbt:1848-1864 | stores of every size up to the last slot number can be built, each key in a slot of its own |
| OrderedStore.SlotsRunOut | wap/stdlib_test.mbt:1848-1864 | a valid store at the last slot number exists, and a new key's slot in it is recorded as negative: index and entries no longer agree |
| OrderedStore.Dissoc | wap/stdlib_test.mbt:1871-1879 | the pair of a key goes and all others stay in order; afterwards the last slot is live, and slots are below 32 or below twice the count if anything was removed |
| OrderedStore.Trim | wap/stdlib_test.mbt:1876-1878 | dropping trailing tombstones changes nothing that can be observed |
| OrderedStore.Compact | wap/stdlib_test.mbt:1827-1846 | `store_compact` keeps the pairs and their order and leaves slots below 32 or below twice the count |
| OrderedStore.Rebuild | wap/stdlib_test.mbt:1835-1846 | the rebuilding loop keeps every pair and leaves no tombstone |
| OrderedStore.Next | wap/stdlib_test.mbt:1816-1823 | the cursor finds the next live entry and where to resume |
| OrderedStore.Each | wap/stdlib_test.mbt:2246-2252 | following the cursor meets every pair once, in order |
| StoreHeap.AsTransient | wap/stdlib_test.mbt:1881-1885 | a transient store stands for the store it was made from |
| StoreHeap.TransientStore.Get | wap/stdlib_test.mbt:1896-1901 | `t_store_get` finds the value bound in the order, and traps exactly when frozen |
| StoreHeap.TransientStore.Assoc | wap/stdlib_test.mbt:1906-1916 | `t_store_assoc` has the effect of `store_assoc` while both builders write in place, and traps, writing nothing, exactly when frozen |
| StoreHeap.TransientStore.Dissoc | wap/stdlib_test.mbt:1923-1930 | `t_store_dissoc` removes one pair, keeps the order and leaves the last slot live; it traps, writing nothing, exactly when frozen |
| StoreHeap.Compacted | wap/stdlib_test.mbt:1827-1846 | `store_compact` of a store in the heap keeps its pairs and their order and leaves it dense, writing nothing that was there |
| StoreHeap.TransientStore.Persistent | wap/stdlib_test.mbt:1932-1935 | the freeze yields a store with the builder's pairs in their order, whose slots are below 32 or below twice the count; both builders are finished, and a finished one traps |
| Unordered.AllSought | wap/stdlib_test.mbt:2416-2426 | when every item of one set is found in another of the same size, and no two in the same place, every item of the other is found too |
| Unordered.FoldMatched | wap/stdlib_test.mbt:2525-2542 | operations that commute accumulate the same over matched collections, in whatever orders they are met |
| StructuralValues.Reflexive | wap/stdlib_test.mbt:2474-2519 | every value is equal to itself, by structure and not only by identity |
| StructuralValues.Symmetric | wap/stdlib_test.mbt:2400-2519 | equality does not depend on which side is asked, though maps and sets search one side only |
| StructuralValues.Transitive | wap/stdlib_test.mbt:2400-2519 | equality is transitive through all nesting |
| StructuralForms.EqualIsSameForm | wap/stdlib_test.mbt:2400-2519 | two values are equal exactly when their normal forms are the same: the same kind with the same contents, in order for vectors, ordered maps and ordered sets, and in any order for maps, sets and records, whose definition counts too; boxes by what they hold where that can be compared |
| ValueKeys.KeysAreLawful | wap/stdlib_test.mbt:2400-2629 | structural equality and hashing are what the hash map asks of its keys |
| ValueKeys.SetLookup | wap/stdlib_test.mbt:2416-2426 | what a set's trie holds is a well-formed set, and a lookup in it finds a key exactly when the list of its items has an equal one |
| StructuralValues.HashSame | wap/stdlib_test.mbt:2521-2629 | equal values of all 14 kinds hash equally: unordered collections by commuting accumulation, ordered ones in encounter order |
| WispValues.Symmetric | wisp/runtime.wap:229-275 | Wisp equality does not depend on which side is asked |
| WispValues.Transitive | wisp/runtime.wap:229-275 | Wisp equality is transitive through all nesting |
| WispForms.EqualIsSameForm | wisp/runtime.wap:229-275 | two values are equal exactly when their normal forms are the same: the same without telling a list from a vector, one NaN from another or the two zeros, and without the order of maps and sets |
| WispValues.HashSame | wisp/runtime.wap:614-692 | equal Wisp values have equal hashes, or both have none: NaN, the two zeros, lists and vectors, maps in any order |
| Utf8.DecodeIsSum | wap/stdlib_test.mbt:3556-3565 | the masks and shifts of a well-formed sequence come to the sum of its payload bits |
| Utf8.EncodeDecodes | wap/stdlib_test.mbt:3540-3571 | decoding gives back the scalar value that section 3 of RFC 3629 encodes, and the encoding is a row of Table 3-7 |
| Utf8.DecodeEncodes | wap/stdlib_test.mbt:3325-3377 | every row of Table 3-7 is the encoding of the scalar value it decodes to |
| Utf8.ReadsWhatEncodes | wap/stdlib_test.mbt:3325-3377 | bytes are read as a list of scalar values exactly when they are its encoding |
| Utf8.EncodeAllInjective | wap/stdlib_test.mbt:3436-3446 | no two texts have the same bytes |
| Utf8.Validate | wap/stdlib_test.mbt:3325-3377 | `validate` accepts exactly the concatenations of encodings of scalar values, and counts them |
| Utf8.EachCodepoint | wap/stdlib_test.mbt:3540-3571 | `each_codepoint` meets every scalar value in order, with its place and byte offset |
| Utf8.OrderOfBytes | wap/stdlib_test.mbt:3448-3463 | byte order is the order of scalar values (section 1 of RFC 3629) |
| Utf8.CompareStrings | wap/stdlib_test.mbt:3448-3463 | `compare` of two valid strings is the lexicographic order of their scalar values |
| Utf8.TryFromBytes | wap/stdlib_test.mbt:3394-3398 | a string is made exactly of valid bytes, with their count and hash |
| Utf8.Equal | wap/stdlib_test.mbt:3436-3446 | two valid strings are equal exactly when their texts are, the cached hash notwithstanding |
| Utf8.Concat | wap/stdlib_test.mbt:3474-3490 | the joined bytes are valid as they stand, the counts add up to what validating them again would give, and it traps exactly when the length overflows |
| Utf8.BoundaryIsPrefix | wap/stdlib_test.mbt:3494-3503 | an offset is a boundary exactly when some number of code points ends there |
| Utf8.TrySliceBytes | wap/stdlib_test.mbt:3505-3528 | a slice is taken exactly between boundaries, and is always valid: it is the text between them |
| Records.TypeAccepts | wap/stdlib_test.mbt:2752-2829 | `type_accepts` is membership in the type, through all nesting |
| Records.SchemaRunValid | wap/stdlib_test.mbt:2887-2901 | after a run, each field added holds exactly the type, default and validator of the operation that added it, each default is accepted, and every other field is as it was |
| Records.SchemaRunRefused | wap/stdlib_test.mbt:2887-2901 | a run is refused exactly for the first duplicate name or unaccepted default, with that status |
| Records.SetRefusedWhen | wap/stdlib_test.mbt:3039-3057 | `try_set` is refused exactly for an unknown field, an unaccepted value, or a new value the whole does not accept; else only that field changes |
| Records.ResetRestores | wap/stdlib_test.mbt:3065-3069 | `try_reset` leaves the field equal to its default and every other as it was; it is refused exactly for an unknown field, or when the whole does not accept what that leaves |
| Records.ApplyEntries | wap/stdlib_test.mbt:3093-3116 | overrides are applied in order until one is refused, which is the first that could be and is named; else exactly the known overridden fields change |
| Records.TryApply | wap/stdlib_test.mbt:3118-3201 | building or merging, strict or lenient: when every override is accepted the answer is the record with exactly those applied if the whole-record validator accepts it, otherwise the answer is the status of the first refused override |
| Records.Run | wap/stdlib_test.mbt:3001-3201 | every record reached through the API holds exactly its schema's fields, each accepted by its type and validator, and the whole is accepted |
| Records.Builder.TrySetField | wap/stdlib_test.mbt:3236-3248 | `t_try_set` checks the field only, and traps only when it has to write a frozen builder |
| Records.Builder.TryPersistent | wap/stdlib_test.mbt:3266-3271 | the freeze uses the builder up even when the whole-record validator refuses |
| WispTerm.RefsNearlyFree | wisp/build.mbt:169-220 | `referenced` collects the names a term reads that are not bound, and misses none but perhaps the blank |
| WispTerm.CapturesAreNeeded | wisp/build.mbt:251-276 | a lambda never captures more than its body needs, and captures all of it if and only if it does not miss the blank |
| WispTerm.BlankIsMissed | wisp/build.mbt:613-622 | under a pattern `_`, which binds nothing, a body that reads an outer `_` does not capture it |
| WispCode.Sorted | wisp/build.mbt:270-270 | the captures of a lambda are listed in order, each once |
| WispOperators.OperatorRuns | wisp/runtime.wap:386-427 | the number emitted for an operator runs that operator's own operation, for all operands: integer results are the exact ones, a result outside 64 bits and a division by zero are found, floats and comparisons as their names say |
| WispOperators.BuiltinRuns | wisp/build.mbt:151-162 | exactly the names that the runtime has a routine for are numbered, and the number runs the routine of that name |
| WispArithmetic.ProductShows | wisp/runtime.wap:416-420 | for all 64-bit operands, dividing the wrapped product by the second factor fails to give the first exactly when the product does not fit; and that division overflows for no operands but those refused before it |
| WispCorrect.RootsAgree | wisp/build.mbt:503-528 | inside an emitted lambda, whether a path starts from a local is decided as in full lexical scope |
| WispCorrect.PatternSame | wisp/build.mbt:613-668 | the test of a pattern holds exactly when the pattern matches, and its names are found at the parts they are bound to |
| WispCorrect.ParamsSame | wisp/build.mbt:280-297 | the binds of an emitted function put its arguments where its body finds them |
| WispCorrect.LambdaSame | wisp/build.mbt:251-277 | evaluating a lambda captures the values its body needs, in the order its code expects |
| WispCorrect.ExprSame | wisp/build.mbt:377-610 | the code of an expression, run with its frame and captures, has the outcome of evaluation in lexical scope, where operators and builtins mean what their names say, tail calls included |
| WispCorrect.ConsultSame | wisp/runtime.wap:429-531 | a builtin called by number does what its name means; `map`, `filter` and `reduce` call the function objects they are given as the source would |
| WispCorrect.BodySame | wisp/build.mbt:312-352 | the code of a body does what the body means, its bindings visible after them and nowhere else |
| WispCorrect.EnterSame | wisp/build.mbt:280-309 | calling an emitted function object does what calling the source function means |
| WispProgram.TableHolds | wisp/build.mbt:84-87 | lambdas have numbers of their own, so that linking loses none |
| WispProgram.ProgramCompiles | wisp/compile.mbt:208-215 | a program the generator accepts, in which no lambda misses a blank, is compiled faithfully |
| WispProgram.PlainMissesNoBlank | wisp/build.mbt:251-276 | no lambda misses a blank in a program where `_` is only a pattern |
| WispProgram.CleanProgramSame | wisp/compile.mbt:208-215 | calling any function of such a program, compiled, does what it means: so in particular where `_` is only a pattern |
| WispBlank.ExprAccepted | wisp/build.mbt:377-610 | each name that accepted code reads is in scope, declared or built in; and if no path from `_` is declared, no lambda in accepted code misses a blank |
| WispBlank.BodyAccepted | wisp/build.mbt:312-352 | the same of bodies, whose bindings widen the scope |
| WispBlank.MissedBlankIsRefused | wisp/build.mbt:251-277 | wherever no path from `_` names a function or a record, every lambda that misses a blank is refused |
| WispBlank.MissedBlankIsIgnored | wisp/build.mbt:251-277 | and in any case it is compiled exactly as if no `_` were in scope around it, so that its `_` is the global one, if there is one |
| WispBlank.ProgramSame | wisp/compile.mbt:208-215 | closure conversion preserves the meaning of every accepted program in which no path from `_` names a function or a record: each call gives the same result or fault, in the same state of the world, with as many function objects |
| WispBlank.BlankNameMisleads | wisp/build.mbt:392-404 | for any declarations among which such a path is, there is a program with those declarations that is accepted, and whose code gives another outcome than its meaning |
| WispBlank.FaithfulExactly | wisp/compile.mbt:208-215 | closure conversion is faithful to every accepted program with given declarations if and only if no path from `_` names one of them |
| WispProgram.BlankHasMeaning | wisp/build.mbt:613-622 | in lexical scope the body of a lambda that misses a blank means the outer `_` |
| WispProgram.MangledInjective | wisp/build.mbt:90-92 | different names are mangled differently |
| WispGenerator.Referenced | wisp/build.mbt:169-220 | `referenced` as it fills its table collects what the set-valued definition says |
| WispGenerator.Generator.Lambda | wisp/build.mbt:251-277 | the generator's `lambda` updates its counter and declarations and returns what the function of that name does |
| WispGenerator.Generator.EmitFunction | wisp/build.mbt:280-309 | `emit_function` emits the declaration its specification describes |
| WispGenerator.Generator.Body | wisp/build.mbt:312-352 | `body`, with its loop over terms and its updated scope, emits the statements its specification describes |
| WispGenerator.Generator.Expr | wisp/build.mbt:377-597 | `expr` emits the node its specification describes, or refuses where it does |
| WispGenerator.Generator.Pattern | wisp/build.mbt:613-668 | `pattern` returns the test and the scope its specification describes |
| WispGenerator.Generator.Functions | wisp/compile.mbt:208-215 | the functions of a program are emitted one after another |
| WispReader.ExpressionSound | wisp/read.mbt:289-372 | what is read is a proper tree over the tokens before the rest, and the rest cannot go on with it |
| WispReader.ExpressionComplete | wisp/read.mbt:289-372 | reading the tokens of a proper tree reads that tree, whatever follows that is not part of its right end |
| WispReader.ReadsProperTrees | wisp/read.mbt:267-274 | the reader returns a tree exactly when it is a proper tree over all the tokens |
| WispReader.ProperTreeIsUnique | wisp/read.mbt:277-286 | there is at most one proper tree over any tokens: left operands bind at least as tightly, right ones more tightly |
| WispReader.TwoOperators | wisp/read.mbt:277-286 | of any two operators in a row the second takes the middle operand exactly when it is of a tighter tier, the tiers being `or`, `and`, comparisons, sums, and products |
| WispReader.Cursor.Expression | wisp/read.mbt:289-372 | `Cursor::expression` moves its cursor past exactly the tree it returns, and terminates |
| WispReader.Reader | wisp/read.mbt:267-274 | `read_expression` returns the one proper tree over the tokens, and refuses only when there is none |
| WispRuntime.Context.Tick | wisp/runtime.wap:48-50 | `tick` succeeds exactly when the fuel covers a cost that is not negative |
| WispRuntime.Context.Allocate | wisp/runtime.wap:52-57 | `allocate` succeeds exactly within the size limit and both meters, takes exactly its cost and one more than its count from them, and names the limit that stopped it |
| WispRuntime.Context.Enter | wisp/runtime.wap:59-62 | `enter` succeeds exactly below the depth limit with fuel left, takes one unit, and names the limit that stopped it |
| WispRuntime.Context.EqualValues | wisp/runtime.wap:229-275 | `equal` that returns is right, has restored the depth and has spent fuel, so that fuel bounds every comparison; it returns whenever the meters cover what its operands need |
| WispRuntime.Context.Key | wisp/runtime.wap:277-287 | `key` returns only for values that have a hash, and has spent fuel; when the meters cover its need, it returns for each of those and refuses the others with their error |
| WispRuntime.Context.Find | wisp/runtime.wap:289-303 | `find` returns where an equal key is, or that there is none, whichever keys the trie compares; when the meters cover its need, it refuses only a key without a hash |
| WispRuntime.Context.HashValue | wisp/runtime.wap:614-692 | `hash` that returns is the hash, has restored the depth and has spent fuel; when the meters cover its need, it refuses only what has no hash |
| WispMaps.KeysAreLawful | wisp/runtime.wap:533-540 | Wisp's equality and hash are what the hash map asks of its keys |
| WispMaps.SeqValues | wisp/runtime.wap:152-166 | `seq_values` of a map or set fills its array exactly, in order |
| WispMaps.Seq | wisp/runtime.wap:116-127 | `seq` binds the pairs of an array one after another |
| WispMaps.Rebuild | wisp/runtime.wap:558-560 | `seq(seq_values(v))` keeps the ordered pairs and leaves no tombstone |
| WispMaps.MapAssoc | wisp/runtime.wap:550-572 | `map_assoc` binds a key in place or at the end, a set keeping what it has; the call it makes of itself after compaction cannot compact again; a new key only ever enters a map below its size limit; when the meters cover its need, it is refused exactly for a key without a hash, or a new one for which there is no room, with that error |
| WispMaps.MapDissoc | wisp/runtime.wap:574-581 | `map_dissoc` removes the pair of a key and keeps the others in order; when the meters cover its need, it refuses only a key without a hash |
| WispMaps.Run | wisp/runtime.wap:550-581 | through every run of assignments and removals that the meters allow, a map or set is the ordered list they describe, every key in it has a hash, and it never grows past its size limit |
| PrinterTree.Tree | printer_pp/doc.mbt:72-115 | `tree` with its stack of open scopes returns the tree the machine describes |
| PrinterTree.TreeWritesTokens | printer_pp/doc.mbt:72-115 | written out again, the tree is the token stream, without unmatched ends and with missing ones added; a balanced stream is what it was |
| PrinterTree.TreeRebuilds | printer_pp/doc.mbt:72-115 | a tree written out and rebuilt is the same tree, its groups numbered in the order they close |
| PrinterTree.TreeIds | printer_pp/doc.mbt:85-92 | no two groups of a tree have the same identity, whatever the stream |
| PrinterPrune.Pruner.Walk | printer_pp/doc.mbt:187-229 | the walk keeps every earlier run settled, and the open run as it was |
| PrinterPrune.Pruner.Settle | printer_pp/doc.mbt:253-275 | the open run becomes one break of its greatest strength, or none before the first text: the first if a group opened between two of them and the last is not to its left, with exactly the difference in spaces where the last was; else the last |
| PrinterPrune.Prune | printer_pp/doc.mbt:130-149 | no break precedes the first text or follows the last; between two texts one break is left exactly where there was any, as strong as the strongest: the first of them if a group opens between two and the last does not indent to the left of the first, with exactly the difference of their indents in spaces where the last was, else the last; all else is as it was |
| PrinterPrune.IndentsCount | printer_pp/doc.mbt:187-229 | the indents that decide which break survives are defined for every break: the base of its group and the nesting inside it, a group being based on the pending indent |
| PrinterLower.SuffixMeans | printer_pp/lower.mbt:183-193 | a suffix is the capped sum of flat widths from there on, or what nothing fits beside when something cannot be flattened |
| PrinterShow.AfterIsTrail | printer_pp/lower.mbt:194-214 | what is kept free after a segment is what comes after it would take on the line: up to the next break, or for a body laid out flat up to its end and past it, and what nothing fits beside where a line has to end |
| PrinterSpelling.LayShows | printer_pp/lower.mbt:160-293 | for every tree, mode, reserve and way of making the choices, the document shows the texts in order, if-broken parts where their group is laid out broken; between them one line end for a newline, an empty line for a blank line, and for a soft break what its body's mode or its own choice says, each line end at its nesting from where its group begins; each choice keeps free what follows it |
| PrinterSpelling.Determined | printer_pp/lower.mbt:160-293 | nothing else is left open: the same choices leave one legal layout of a body |
| PrinterSpelling.ShowsLegalSpellings | printer_pp/lower.mbt:160-293 | what the document shows, over all ways of making the choices, is exactly the legal spellings of the tree |
| PrinterMemo.IdsDetermine | printer_pp/lower.mbt:102-110 | when no identity is used twice, each determines its group |
| PrinterMemo.Memo.GroupFlat | printer_pp/lower.mbt:349-361 | the table of flat documents returns what would be built |
| PrinterMemo.Memo.GroupDoc | printer_pp/lower.mbt:365-408 | identity, mode code with bump, and reserve determine a group's document: the table returns what would be built |
| PrinterMemo.Memo.Lay | printer_pp/lower.mbt:160-293 | laying a body out with the tables gives the document of the plain recursion |
| PrinterMemo.LowerTree | printer_pp/lower.mbt:160-293 | for every tree with identities of its own, every mode and every reserve, the memoised lowering is the plain one, and its document shows legal spellings of the tree |
| PrinterToDoc.PruningKeepsIds | printer_pp/doc.mbt:130-149 | pruning leaves every group its identity |
| PrinterToDoc.ToDoc | printer_pp/lower.mbt:427-431 | the three passes together give the plain lowering of the pruned tree of the tokens, and whatever is chosen the document shows a legal spelling of that tree |
| ParserMessages.BuildFills | tools/gen_parser_messages.py:202-223 | filling the table comes, at every key, to what the stacks that end with it and those that are it determine |
| ParserMessages.FoundAsRecorded | tools/gen_parser_messages.py:202-223 | every recorded stack finds its own message, or nothing where its records disagree, if and only if no stack whose records agree is the end of a longer one with another message |
| ParserMessages.NoSuffixNoClash | tools/gen_parser_messages.py:202-223 | with no recorded stack at the end of another there is no such clash |
| ParserMessages.ShortStackHidesLonger | tools/gen_parser_messages.py:202-223 | with one, a `Deeper` entry is overwritten and a longer stack finds the wrong message |
| ParserMessages.BuildTable | tools/gen_parser_messages.py:202-223 | `build`, with its groups and its recursion, fills the table its specification describes |
| ParserMessages.Lookup | tools/gen_parser_messages.py:503-536 | `lookup` returns the message the walk through `Deeper` entries ends at, if its signature is the failure's or it fits |
| ParserMessages.RoundTrip | tools/gen_parser_messages.py:202-223 | filling a table and looking a recorded stack up with its own signature returns its message |

## Left out

- Null values in the vector's trie and elements that are null are told apart by a
  datatype, where the source has one `eq?`; a node in an element's place cannot be written.
- A map's `has_null` and `null_value` are one optional value, a slot pair of a bitmap node
  is one slot, and a collision node's count is the length of its pairs.
- Whether a persistent operation returns the same node or an equal one: the values are the same.
- The persistent map operations in the heap; they are functions on values, and only builders are in the heap.
- `StoreHeap.Compacted`: the new index and entries are filled through a builder, where `store_compact`
  uses the persistent operations; by `HamtHeap.Build` and `VectorHeap.Build` they come to the same.
- Persistent hash sets, and the thin wrappers of vectors, maps and sets around the same operations.
- `StructuralValues.Equal`: looking a key up in a map or set is finding it in the list of its contents, as `ValueKeys.SetLookup` justifies.
- The MurmurHash3 functions are arbitrary total functions; what floats do beyond comparing is not modelled.
- `Utf8.Validate`: the offsets of a string of 2^31 - 3 bytes or more, where `i + 3` would wrap, are not modelled.
- Records over builders of the trie: a record's values are a finite map, as `HashMap.RunLaw` justifies.
- The Wisp generator's text and array temporaries, source positions, storage types of record fields, and the
  order in which an array is allocated before its elements are evaluated; fuel, allocation and depth of emitted code.
- `WispCorrect.ExprSame`: the runtime's operations other than the operators, `map`, `filter` and `reduce` are arbitrary
  functions of their arguments and the world; the parts of a value that a pattern reads, and its tests, do not depend on
  the world; floating-point operations are arbitrary, and told apart by name only.
- Names with a dot in them, which the reader does not make: a path is a list of names.
- `WispRuntime.Context.EqualValues`: the shortcut for two references to one object is not taken, tombstones in nested
  maps are not charged for, and which stored keys a trie compares is a parameter.
- The other operations of the Wisp runtime (`get`, `conj`, strings and what the other builtins do), host calls and suspension.
- `WispMaps.MapAssoc`: what is called its need is enough, and may be more than is taken.
- What the reader does inside brackets, and the folding of a minus into a literal.
- The layout library behind the documents, and the streaming engine: how wide a document is flat is a parameter, and
  so is which side of a choice is taken; columns are counted from where an earlier piece begins.
- The number of messages dropped as unresolvable, and that joining states with spaces tells keys apart.
- `wisp/runtime_generated.mbt`, a generated copy; the checker, the emitter and the facades; the other tools.
