# NodeAI kernel cores in Dafny

NodeAI is a Rust kernel with learning components in its scheduler, memory manager and security
monitor. This project models the algorithmic and stateful cores of that kernel and proves what
they compute, over every input, every run or every interleaving.

`dafny verify dfyconfig.toml` checks the whole project.

| module | what it models |
|---|---|
| `HotShards`, `HotLock`, `HotStale`, `HotTraces`, `HotObject` | the map that starts under one lock and moves into eight hash shards under contention, as a protocol of threads refining one atomic map, also in runs where threads use the global map after the split, and as an object |
| `BuildSys`, `BuildOrder` | the depth-first dependency order of Makefile rules, on cyclic and acyclic rule sets |
| `ElfReloc`, `ElfLayout`, `ElfModule`, `ElfSymbols` | the x86-64 module relocator, against section 4.4 (Relocation) of the System V ABI AMD64 Architecture Processor Supplement |
| `GlaPrefetch` | gated linear attention over the page faults of a process |
| `QwenMat`, `QwenCache`, `QwenRun` | INT4 matrices, their place in the weight file, the flat key/value cache, the forward pass over it and generation in the Qwen engine |
| `TopK` | three hand-written top-k selections and the masking that uses them |
| `AutoSecurity`, `SecurityLaws` | the tumbling-window fork and connection detectors and the memory scan |
| `Anomaly`, `AnomalyLaws` | the syscall bigram detector and its self-tuning threshold |
| `Inference`, `InferenceLaws` | INT8 quantisation, lane-split dot products and activations of dense layers |
| `QwenTok` | the greedy longest-match tokenizer |
| `Causal`, `CausalLaws`, `Habits` | the ring of recent wakeups and its queries, and how one more wakeup changes a prediction |
| `JobControl` | process groups and the foreground priority bonus |
| `IntelStorage`, `StorageLaws` | run-length compression, file heat and storage tiers |
| `Prelude`, `Bits`, `Ranking` | shared vocabulary: options, products, bitwise operators, stable ranking |

Floats are reals throughout; -infinity is a value of its own in `TopK`. The clock, the scheduler,
exponentials, softmax, the position-wise parts of a network and the kernel's export table are parameters.
Code that updates state is a class or an array method tied to a specification function; the
properties of that function are the lemmas beside it.

## Where the code and its documentation disagree

The model follows the code.

- `last_waker` is documented to return the most recent waker and returns the oldest live one
  (`Causal.LastWakerIff`, `Causal.LastWakerStale`).
- `edges_for_pid` returns one edge when none is asked for (`Causal.LimitKeptIff`).
- `find_kth_largest` returns the largest value when as many values are asked for as there are
  (`TopK.FindKthIff`, `TopK.TwoOfTwo`), so a vocabulary of at most 40 tokens is sampled greedily
  (`TopK.SmallVocabularyIsGreedy`); it keeps 40 places, so it never looks past the 40th
  (`TopK.FortyOnly`).
- The byte fallback of `encode` is documented to hit byte tokens. A byte that has its own token is
  always indexed, so a fallback never decodes to its byte (`QwenTok.FallbackNeverItself`,
  `QwenTok.FallbackLoses`); comments speak of tokens up to 32 bytes, the code indexes up to 48.
- The file heat is documented to decay over an hour; it decays over 3,600,000 seconds
  (`IntelStorage.RecencyGoneIff`, `IntelStorage.AfterOneHour`), and its last addition wraps
  (`IntelStorage.ScoreMonotoneIff`, `IntelStorage.HottestTurnsCold`).
- `fast_tanh` is documented as valid below 4; it leaves [-1, 1] beyond 3 (`Inference.TanhRangeIff`,
  `Inference.TanhOvershoots`).
- `quantize` is documented to return nothing for some rows; it always returns a layer
  (`Inference.Quantize`).
- The converter script interleaves nibbles and scales, the kernel reads all nibbles first
  (`QwenMat.ConverterAgreesIff`).
- `adapt` is documented to relax the threshold under load; its formula lowers it
  (`Anomaly.LoadTightens`, `Anomaly.TenTasksTighten`).
- A process is said to be convicted above 60 percent of memory; the percentage is cut to a byte
  first (`AutoSecurity.HogsIff`, `AutoSecurity.ThreeTimesTheMemory`).
- A rule that depends on itself is still ordered, wrongly (`BuildSys.TopologicalIff`,
  `BuildSys.SelfDependency`), and nothing checks that a section alignment is a power of two
  (`ElfLayout.AlignedIff`, `ElfLayout.MisalignedByThree`).

## Model

| member | source | states |
|---|---|---|
| `HotShards.ComputeShardIdx` | kernel/src/hot_lock.rs:38-45 | the hash loop computes the FNV-1a shard of the key |
| `HotShards.ShardUsesLowBits` | kernel/src/hot_lock.rs:38-45 | the 64-bit hash modulo eight is an eight-state automaton over the low three bits of each byte, so keys equal in those bits always share a shard |
| `HotLock.InitInv` | kernel/src/hot_lock.rs:22-35 | a new map satisfies the protocol invariant and is empty |
| `HotLock.StepRefines` | kernel/src/hot_lock.rs:47-144 | every atomic step of every thread, except a stale call (one that read the flag before the split and uses the global map after it), keeps the invariant (own hash shard, one lock holder, global and shards disjoint before the split) and is a step of one atomic map by the same thread; it leaves nothing in the global map after the split |
| `HotLock.StaleStep` | kernel/src/hot_lock.rs:49-65 | a stale call keeps the invariant too, changes nothing in the map, and answers from what earlier stale calls left in the global map |
| `HotLock.StaleRefinesIff` | kernel/src/hot_lock.rs:49-65 | taking effect at that step, a stale call is a step of the atomic map if and only if it inserts a binding that is there, reads what the map has, or removes a key that neither the map nor the leftovers have |
| `HotLock.RunRefines` | kernel/src/hot_lock.rs:38-144 | in every interleaving of any number of threads each reachable state is well formed and each step except a stale call is a step of one atomic map starting empty; without stale calls nothing is left in the global map |
| `HotLock.SnapshotRegular` | kernel/src/hot_lock.rs:105-117 | whatever a concurrent snapshot that is not stale itself says about a key was true of the map at some moment while it ran, whatever stale calls run beside it |
| `HotLock.QuiescentSnapshot` | kernel/src/hot_lock.rs:105-117 | a snapshot taken while the map does not change equals the map |
| `HotLock.StaleSnapshotIff` | kernel/src/hot_lock.rs:105-117 | a stale snapshot lists the leftovers of stale calls; it is regular if and only if each key was at some moment bound in the map as it is there, and with no leftovers if and only if each key was missing at some moment |
| `HotStale.WalkRuns` | kernel/src/hot_lock.rs:47-144 | every run, stale calls included, is a sequence of moves: atomic-map steps, or stale calls that change nothing and answer from the leftovers |
| `HotStale.PlacedRunRefines` | kernel/src/hot_lock.rs:47-144 | a run with any number of stale calls is still a run of the atomic map, with the same invocations and answers, if each stale call has a moment inside its call at which it is unseen, or is an insert that the next step overwrites |
| `HotStale.AbsorbedFirst` | kernel/src/hot_lock.rs:47-66 | any number of overwritten inserts may come before the overwriting step |
| `HotStale.StaleWindowIff` | kernel/src/hot_lock.rs:69-102 | the exact moments of a stale get are those at which the map agrees with what it read; of a stale removal, those at which the key is absent, if it found nothing |
| `HotStale.FitsIff` | kernel/src/hot_lock.rs:47-102 | a call with a given answer fits in front of another thread's step if and only if the answer is right there and the call changes nothing or the step overwrites its key |
| `HotTraces.StaleReachable` | kernel/src/hot_lock.rs:49-65 | three threads do reach a stale insert |
| `HotTraces.LostInsert` | kernel/src/hot_lock.rs:47-84 | from there an insert returns and a later lookup of its key misses |
| `HotTraces.LeftoverMisleads` | kernel/src/hot_lock.rs:49-84 | a binding left behind is read by a later stale lookup although the map is empty |
| `HotTraces.SnapshotMisses` | kernel/src/hot_lock.rs:105-117 | three threads reach a stale snapshot that omits a binding which was there when it began and is there when it lists |
| `HotObject.HotMap.constructor` | kernel/src/hot_lock.rs:22-35 | a new map is empty, unsplit and uncontended |
| `HotObject.HotMap.Insert` | kernel/src/hot_lock.rs:48-66 | the abstract map gains the binding, contention counts lost races only before the split, and the split happens exactly above the threshold |
| `HotObject.HotMap.Get` | kernel/src/hot_lock.rs:69-84 | returns the abstract map's binding and leaves the abstract map alone even when it splits |
| `HotObject.HotMap.Remove` | kernel/src/hot_lock.rs:87-102 | removes and returns the abstract map's binding |
| `HotObject.HotMap.Snapshot` | kernel/src/hot_lock.rs:105-117 | the union over shards, or the global map, is the abstract map |
| `HotObject.HotMap.CheckSplit` | kernel/src/hot_lock.rs:120-144 | the migration conserves every binding, empties the global map and runs exactly above the threshold; a map that is already split is left alone |
| `BuildSys.Resolver.CollectDeps` | kernel/src/build_sys.rs:149-163 | the recursion over shared vectors equals the search function on any rule set; it terminates because unvisited names shrink |
| `BuildSys.ResolveOrder` | kernel/src/build_sys.rs:142-147 | returns the rules of the search's finished names, in finishing order |
| `BuildSys.VisitsReachable` | kernel/src/build_sys.rs:149-163 | on every rule set, cyclic or not, exactly the reachable names are visited and exactly those with a rule are finished, each once |
| `BuildSys.TopologicalIff` | kernel/src/build_sys.rs:142-163 | every rule comes after the rules of all its dependencies if and only if no cycle of target names is reachable |
| `BuildOrder.ListedOrder` | kernel/src/build_sys.rs:149-163 | of two dependencies of a rule the one listed first is made first, unless it or one listed before the other needs the other |
| `BuildSys.SelfDependency` | kernel/src/build_sys.rs:142-163 | a rule that depends on its own target is ordered wrongly |
| `BuildSys.Multiplicity` | kernel/src/build_sys.rs:155-161 | a rule is pushed once per reachable name it is found for |
| `BuildSys.SingleTargetOnce` | kernel/src/build_sys.rs:155-161 | a reachable single-target rule runs exactly once |
| `ElfReloc.ApplyReloc` | kernel/src/elf.rs:636-680 | patches the computed field in place, skips it silently when it does not fit, and leaves the buffer alone on an error |
| `ElfReloc.FieldSound` | kernel/src/elf.rs:636-680 | a stored field solves the relocation's ABI equation modulo 2^64 |
| `ElfReloc.FieldComplete` | kernel/src/elf.rs:636-680 | any field that solves the equation is the one that is stored |
| `ElfReloc.OverflowIff` | kernel/src/elf.rs:649-675 | `Overflow32` is returned if and only if no field value could solve the equation of a supported relocation |
| `ElfLayout.AlignPow2` | kernel/src/elf.rs:498-499 | for a power of two the mask rounds the cursor up to the next multiple |
| `ElfLayout.AlignedIff` | kernel/src/elf.rs:498-499 | the mask yields a multiple for every cursor if and only if the alignment is a power of two |
| `ElfLayout.MisalignedByThree` | kernel/src/elf.rs:498-499 | an alignment of three leaves cursor 1 where it is |
| `ElfLayout.LayoutDisjoint` | kernel/src/elf.rs:488-514 | loaded sections get aligned, ordered, pairwise disjoint ranges above the load address |
| `ElfLayout.LayoutTight` | kernel/src/elf.rs:488-514 | each starts less than its alignment after the load address or the end of a loaded section before it |
| `ElfSymbols.AlignedAsAsked` | kernel/src/elf.rs:496-500 | a loaded section is aligned as its header asks, where 0 and 1 ask for nothing |
| `ElfLayout.LoadSections` | kernel/src/elf.rs:488-514 | the layout loop computes exactly those addresses and the copied buffer |
| `ElfLayout.CopiedContents` | kernel/src/elf.rs:501-509 | a copied section appears byte for byte, undisturbed by later sections |
| `ElfLayout.CopiedOutside` | kernel/src/elf.rs:501-509 | bytes outside all loaded sections keep their value |
| `ElfSymbols.SectionBytes` | kernel/src/elf.rs:501-509 | the range of a loaded section holds its bytes if it lies inside the file and fits the buffer, and otherwise what was there |
| `ElfModule.Shdrs` | kernel/src/elf.rs:578-584 | within the checked bounds every section header can be read by its index |
| `ElfModule.SymsUpTo` | kernel/src/elf.rs:602-614 | the symbols of the table in order, cut short exactly at the end of the file |
| `ElfSymbols.ShdrRoundTrip` | kernel/src/elf.rs:394-406 | a section header laid out as the format says is read back |
| `ElfSymbols.SymRoundTrip` | kernel/src/elf.rs:408-417 | so is a symbol |
| `ElfSymbols.RelaRoundTrip` | kernel/src/elf.rs:419-430 | so is a relocation entry, with its symbol, type and signed addend |
| `ElfSymbols.HeaderRoundTrip` | kernel/src/elf.rs:472-486 | so is the file header; the section table is accepted exactly when it lies inside the file |
| `ElfSymbols.NameRoundTrip` | kernel/src/elf.rs:616-621 | a valid name stored with its NUL is read back |
| `ElfSymbols.SymtabIsFirst` | kernel/src/elf.rs:586-600 | the first symbol table and the string table it links to are used |
| `ElfSymbols.StrtabIs` | kernel/src/elf.rs:518-521 | the string table is the bytes of its section, or empty when it runs past the file |
| `ElfSymbols.TablesRoundTrip` | kernel/src/elf.rs:516-614 | the symbols and names that relocation uses are exactly those written in the symbol table and the string table it links to |
| `ElfSymbols.SymbolIsFirst` | kernel/src/elf.rs:623-634 | a name is looked up as the first symbol of that name with a section, at its address in that section |
| `ElfModule.UpToNul` | kernel/src/elf.rs:616-621 | the string up to, and not including, its first NUL |
| `ElfModule.ApplyEntry` | kernel/src/elf.rs:543-565 | one relocation entry: symbol resolution, skipped entries, missing symbols and the patch; `ElfSymbols.RelocationSolved` and `ElfSymbols.RelocatesIff` say what that means |
| `ElfModule.ApplyTable` | kernel/src/elf.rs:532-566 | the entries of one table in order, stopping at the first error |
| `ElfModule.ApplyTables` | kernel/src/elf.rs:523-567 | all tables in section order, stopping at the first error |
| `ElfModule.AppliedField` | kernel/src/elf.rs:523-567 | in the finished image every relocation that no later one overwrites solves its ABI equation |
| `ElfSymbols.RelocationSolved` | kernel/src/elf.rs:523-567 | in the finished image the field of every entry solves its ABI equation with P the place in the patched section and S the address of the symbol in its own section, or the kernel's export of its name, unless a later entry touches it |
| `ElfSymbols.RelocatesIff` | kernel/src/elf.rs:523-567 | a module relocates without an error if and only if every entry is ignored, or names a symbol with an address and an equation with a solution; otherwise the error is that of the first entry that does not |
| `ElfSymbols.PointerLands` | kernel/src/elf.rs:488-567 | following a relocated 64-bit or relative pointer in the finished image leads to the byte of the file that the symbol and the addend name |
| `ElfModule.ImageBytes` | kernel/src/elf.rs:488-567 | every byte of a copied section that no relocation covers is the file's byte |
| `ElfModule.ImageOutside` | kernel/src/elf.rs:488-567 | every byte outside all sections and relocations is the buffer's own |
| `ElfModule.RelocateModule` | kernel/src/elf.rs:472-574 | from file bytes to result: each error case, the finished image, and the address of `module_init` or the load address |
| `GlaPrefetch.GlaPageState.Step` | kernel/src/gla_prefetch.rs:195-217 | the in-place loops perform one step of the recurrence and one read |
| `GlaPrefetch.Qkv` | kernel/src/gla_prefetch.rs:112-126 | the projection loops compute the feature maps of the queries and keys and the linear values |
| `GlaPrefetch.AttendIsSum` | kernel/src/gla_prefetch.rs:195-206 | the recurrent sum is the sum over the whole history, each fault weighted by the product of all later gates |
| `GlaPrefetch.StateIsAttention` | kernel/src/gla_prefetch.rs:195-206 | for every history each entry of S and z is the decayed sum of k v and of k |
| `GlaPrefetch.ReadIsAttention` | kernel/src/gla_prefetch.rs:207-214 | the numerator of a read is linear attention over the full history |
| `GlaPrefetch.NormIsAttention` | kernel/src/gla_prefetch.rs:208-208 | the normaliser of a read is the sum of the attention scores over the full history |
| `GlaPrefetch.ReadBounded` | kernel/src/gla_prefetch.rs:195-217 | each output coordinate is the attention mean of past values, between their least and greatest, scaled towards zero exactly when the normaliser is below EPS |
| `GlaPrefetch.FaultPositive` | kernel/src/gla_prefetch.rs:51-59 | queries, keys and gates are positive, gates below one, for all weights |
| `GlaPrefetch.AdvisorReadBounded` | kernel/src/gla_prefetch.rs:235-263 | for any weights and any faulting pages the advisor's read stays within the range of the values so far, up to that scaling |
| `GlaPrefetch.ReadInWeights` | kernel/src/gla_prefetch.rs:112-258 | the read at the last fault, from the weights: the query features of the last page against the key features of every page so far, each times the product of all later gates, weigh those pages' values, over their sum or EPS |
| `GlaPrefetch.FeatureGrows` | kernel/src/gla_prefetch.rs:51-54 | the feature map grows strictly, as fast as its argument from zero on, and is below one exactly for negative arguments |
| `GlaPrefetch.ProjectionsOfUnit` | kernel/src/gla_prefetch.rs:112-126 | a unit embedding selects a column of the weights |
| `GlaPrefetch.GateLaws` | kernel/src/gla_prefetch.rs:56-59 | the gate grows with its argument, and a gate and its opposite add up to one |
| `GlaPrefetch.TokenOf` | kernel/src/gla_prefetch.rs:107-109 | a page's token is the exclusive or of its two lowest digits to base 128, whatever the higher ones are |
| `GlaPrefetch.TargetClass` | kernel/src/gla_prefetch.rs:267-276 | the first nearest delta class; a backward jump counts as zero pages |
| `GlaPrefetch.ClassIs` | kernel/src/gla_prefetch.rs:267-276 | in numbers: up to 1, 3, 6, 12 pages and beyond |
| `GlaPrefetch.MovedForward` | kernel/src/gla_prefetch.rs:265-266 | the distance is the pages moved forward, zero for a backward jump |
| `GlaPrefetch.GlaPageState.OnFault` | kernel/src/gla_prefetch.rs:235-299 | after any sequence of faults the state is that of the whole history; the previous read is trained towards the nearest class of the distance moved, and the page predicted is the output head's choice for the current read |
| `QwenMat.Alloc` | kernel/src/lm_qwen.rs:60-66 | a region of nibbles followed by scales, ending at the returned offset |
| `QwenMat.GroupsInRegion` | kernel/src/lm_qwen.rs:59-67 | every group is read inside the matrix's own region and different groups share no byte |
| `QwenMat.DequantRow` | kernel/src/lm_qwen.rs:150-169 | the row's weights appear in the output, ragged last group included, and the rest is untouched |
| `QwenMat.RowProduct` | kernel/src/lm_qwen.rs:180-196 | scaling each group's sum once equals the dot product with the dequantised row |
| `QwenMat.MatmulAdd` | kernel/src/lm_qwen.rs:172-199 | adds to each output the dot product of the dequantised row with x, for every shape |
| `QwenMat.NibbleRoundTrip` | scripts/convert_qwen_kernel.py:28-33 | every 32 levels from -8 to 7, packed as the converter packs them, are read back |
| `QwenMat.WeightRoundTrip` | kernel/src/lm_qwen.rs:150-169 | so a weight is the level packed for its column times its group's scale |
| `QwenMat.ColumnOfProduct` | kernel/src/lm_qwen.rs:172-199 | the product with a unit vector is a column of those weights |
| `QwenMat.ConverterOrder` | scripts/convert_qwen_kernel.py:67-93 | the converter writes vectors and matrices in the order in which the kernel reads them |
| `QwenMat.PiecesDisjoint` | kernel/src/lm_qwen.rs:443-464 | consecutive pieces of a weight file never overlap |
| `QwenMat.ParseItems` | kernel/src/lm_qwen.rs:443-464 | the parse succeeds if and only if every float vector lies inside the file, and yields the matrices of the layout in file order |
| `QwenMat.MatPosition` | kernel/src/lm_qwen.rs:443-464 | each matrix stands in that list after exactly the matrices before it in the file |
| `QwenMat.ParseAccepts` | kernel/src/lm_qwen.rs:443-464 | parsing a model file succeeds if and only if the file reaches the end of the output norm |
| `QwenMat.MatricesInFileIff` | kernel/src/lm_qwen.rs:443-464 | all matrices can be read inside the file if and only if it holds the whole layout |
| `QwenMat.ParsingIsNotEnough` | kernel/src/lm_qwen.rs:462-464 | for every architecture some file parses although its last matrix runs past its end |
| `QwenMat.ConverterAgreesIff` | scripts/convert_qwen_kernel.py:18-35 | for the matrix the reader allocates, the converter writes every group's nibbles and scale where the reader looks for them if and only if there is at most one group; the total size always agrees |
| `QwenCache.FlatIndex` | kernel/src/lm_qwen.rs:212-267 | the flat (layer, head, position, dim) index is in bounds and injective |
| `QwenCache.HeadMapIff` | kernel/src/lm_qwen.rs:252-259 | query heads stay inside their layer's key/value heads if and only if these divide the query heads |
| `QwenCache.KvHeadIff` | kernel/src/lm_qwen.rs:252-259 | query heads share key/value heads in consecutive blocks |
| `QwenCache.KvHeadServes` | kernel/src/lm_qwen.rs:252-259 | each key/value head serves exactly nHeads / nKv query heads |
| `QwenCache.FourteenHeads` | kernel/src/lm_qwen.rs:252-259 | with 14 query heads and two key/value heads, heads 0 to 6 share the first |
| `QwenCache.UnitQueryScores` | kernel/src/lm_qwen.rs:262-269 | against a unit query the score of a position is its key at that place times the scale |
| `QwenCache.AttentionPicks` | kernel/src/lm_qwen.rs:255-291 | attention all on one position returns that position's value, from the block its head shares |
| `QwenCache.StoreLayer` | kernel/src/lm_qwen.rs:240-248 | the store loop writes this position of this layer and no other cell |
| `QwenCache.Store` | kernel/src/lm_qwen.rs:240-248 | a cache that holds exactly some rows, and zeros elsewhere, then holds exactly one vector more |
| `QwenCache.Scores` | kernel/src/lm_qwen.rs:261-269 | each score is taken against the key stored at that position |
| `QwenCache.Mixed` | kernel/src/lm_qwen.rs:282-290 | the weighted sum runs over the stored values |
| `QwenRun.InputsPrefix` | kernel/src/lm_qwen.rs:203-342 | attention looks back only: a later token changes no layer's inputs at earlier positions |
| `QwenRun.LayerEquation` | kernel/src/lm_qwen.rs:214-328 | each layer's output at a position combines its input there with the attention of its query over the keys and values of the positions up to it, each projected with its own position |
| `QwenRun.Run.Attend` | kernel/src/lm_qwen.rs:255-291 | all heads of a layer attend over exactly the rows the caches hold |
| `QwenRun.Run.Forward` | kernel/src/lm_qwen.rs:203-342 | one token through all layers, each feeding the next: the logits are those of recomputing every layer at every position of the whole text, and the caches then hold exactly that text |
| `QwenRun.PromptTail` | kernel/src/lm_qwen.rs:578-581 | the longest tail of the prompt that leaves room for generation |
| `QwenRun.Run.Generate` | kernel/src/lm_qwen.rs:566-605 | the generated tokens are those of generation that recomputes attention over the whole text at each step, and the caches then hold exactly this run, zeros elsewhere, within 512 positions |
| `QwenRun.ContinueStops` | kernel/src/lm_qwen.rs:594-605 | that generation stops at an end token or after 128 tokens and never for lack of room, and each token is the one sampled at its place |
| `TopK.KthUnique` | kernel/src/lm_mhs.rs:390-410 | the k-th largest value, counted with multiplicity, is unique |
| `TopK.ShiftIn` | kernel/src/lm_mhs.rs:396-407 | the in-place shift inserts into the descending buffer and drops its last value |
| `TopK.FindKthLargest` | kernel/src/lm_mhs.rs:391-410 | the min(k, 40)-th largest value when k is below the length, the largest value otherwise |
| `TopK.FindKthIff` | kernel/src/lm_mhs.rs:391-410 | for every k the result is the k-th largest if and only if there are more than k values and k is at most 40 or the k-th ties with the 40th, or there are exactly k values and all are equal |
| `TopK.FortyOnly` | kernel/src/lm_mhs.rs:394-409 | asked for the 41st largest of fifty different values, the function names the 40th |
| `TopK.TwoOfTwo` | kernel/src/lm_mhs.rs:391-393 | asked for the second largest of two, the function names the largest |
| `TopK.BubbleIn` | kernel/src/lm_projectk.rs:262-265 | overwriting the last place and bubbling up is the same insertion |
| `TopK.BubbleThreshold` | kernel/src/lm_projectk.rs:260-266 | the 40th largest value, or -infinity for fewer values |
| `TopK.SortDesc` | kernel/src/lm_qwen.rs:362-365 | the list sort keeps exactly the entries |
| `TopK.SortKeys` | kernel/src/lm_qwen.rs:362-365 | and orders their keys descending, with the same counts above every cut |
| `TopK.TopList` | kernel/src/lm_qwen.rs:355-367 | the 40 largest values with their own indices, none twice, in descending order |
| `TopK.SameThreshold` | kernel/src/lm_mhs.rs:390-410 | the three selections give one threshold on every list longer than 40 |
| `TopK.Mask` | kernel/src/lm_mhs.rs:328-328 | exactly the values below the threshold are replaced |
| `TopK.MaskKeeps` | kernel/src/lm_mhs.rs:327-328 | masking with the k-th largest keeps at least k values, and exactly k unless the next one ties |
| `TopK.SmallVocabularyIsGreedy` | kernel/src/lm_mhs.rs:327-328 | with at most 40 tokens only the largest logits survive the mask |
| `AutoSecurity.Monitor.OnFork` | kernel/src/auto_security.rs:88-113 | one fork hook: window, count, flag, log and counter, also when the clock is behind the window |
| `AutoSecurity.Monitor.OnConnect` | kernel/src/auto_security.rs:116-141 | one connection hook |
| `AutoSecurity.Monitor.Tick` | kernel/src/auto_security.rs:237-275 | at most one memory scan in five seconds, which convicts in order exactly the processes whose percentage test succeeds |
| `AutoSecurity.Monitor.OnMemoryBomb` | kernel/src/auto_security.rs:261-270 | the conviction branch of the memory scan |
| `SecurityLaws.ExpiredIff` | kernel/src/auto_security.rs:93-96 | a window is over if and only if the 64-bit difference of now and its start exceeds 1000 ms, also when the clock is behind |
| `SecurityLaws.ScanConvicts` | kernel/src/auto_security.rs:246-275 | a scan sandboxes exactly the processes it finds above the test, besides those sandboxed before, and leaves every window alone |
| `SecurityLaws.ScanLogs` | kernel/src/auto_security.rs:246-275 | it logs one memory event for each process it convicts and nothing else |
| `AutoSecurity.HogsIff` | kernel/src/auto_security.rs:251-251 | the percentage test means more than 60 percent if and only if the percentage is at most 60 or still above 60 modulo 256 |
| `AutoSecurity.ThreeTimesTheMemory` | kernel/src/auto_security.rs:251-251 | three times the memory counts as 44 percent |
| `AutoSecurity.Monitor.OnReport` | kernel/src/auto_security.rs:144-160 | hooks that log an event and leave all statistics alone |
| `AutoSecurity.WindowOf` | kernel/src/auto_security.rs:88-141 | after any run a process's window depends on its own calls of that kind only |
| `AutoSecurity.Detection` | kernel/src/auto_security.rs:88-141 | on a monotone clock 101 forks, or 401 connections, of one process within any closed 1000 ms leave it sandboxed |
| `AutoSecurity.BoundIsTight` | kernel/src/auto_security.rs:93-98 | 100 forks, or 400 connections, within 1 ms need not fire |
| `AutoSecurity.NoFalseAlarm` | kernel/src/auto_security.rs:88-141 | a fork-bomb or port-scan event is only logged at the last of 51 forks, or 201 connections, within 1000 ms |
| `AutoSecurity.SandboxedIff` | kernel/src/auto_security.rs:88-141 | after any run a process is sandboxed if and only if one of its windows once passed its limit or the memory scan convicted it |
| `AutoSecurity.LogMatchesFlags` | kernel/src/auto_security.rs:98-139 | in every reachable state each sandboxed process has exactly one conviction in the log, nobody else has one, and the counter is the length of the log |
| `Anomaly.AutoTune.Adapt` | kernel/src/autotune.rs:42-80 | whatever the signals, the threshold moves 30% towards the target the formula gives and never leaves [0.00005, 0.01] |
| `Anomaly.LoadTightens` | kernel/src/autotune.rs:42-80 | more load never raises the target, and lowers it strictly if and only if the load was below 30 tasks and the unclamped targets are not both beyond one bound |
| `Anomaly.TenTasksTighten` | kernel/src/autotune.rs:42-80 | ten tasks take a tenth off the target of a calm system |
| `AnomalyLaws.ChaosTightens` | kernel/src/autotune.rs:42-80 | a higher entropy reading never raises the target, with the exact strict case and slope |
| `AnomalyLaws.ModulationMonotone` | kernel/src/autotune.rs:42-80 | scheduler-to-memory coupling and anomaly retention tighten, memory-to-anomaly coupling and memory retention relax |
| `AnomalyLaws.ModulationBalance` | kernel/src/autotune.rs:42-80 | where the signals balance, and exactly when a pair reaches its bound of 0.3 |
| `Anomaly.CovBounded` | kernel/src/anomaly.rs:32-47 | the circular lag-1 covariance never exceeds the variance in magnitude |
| `Anomaly.Lag1Autocorr` | kernel/src/anomaly.rs:32-47 | the loop computes the autocorrelation of the samples in order, and its final clamp never changes the value |
| `Anomaly.RingReading` | kernel/src/anomaly.rs:100-105 | the reading taken from the ring is that of the last sixteen samples of the history |
| `AnomalyLaws.AutocorrShift` | kernel/src/anomaly.rs:32-47 | the reading does not depend on the level of the samples |
| `AnomalyLaws.TurnsAreChaotic` | kernel/src/anomaly.rs:32-47 | two syscalls taking turns give the lowest reading there is |
| `Anomaly.MarginalIsRowSum` | kernel/src/anomaly.rs:114-133 | in every history each marginal count is the sum of its bigram counts |
| `AnomalyLaws.CountsMean` | kernel/src/anomaly.rs:109-134 | the counts are the number of observations of one syscall right after another, and of anything right after it |
| `Anomaly.BigramAtMostMarginal` | kernel/src/anomaly.rs:114-123 | so a bigram count never exceeds its marginal |
| `Anomaly.PhiNext` | kernel/src/anomaly.rs:117-123 | the predictability average stays in [0, 1], with its rates at both extremes |
| `AnomalyLaws.PhiConverges` | kernel/src/anomaly.rs:117-123 | over equal transitions the average closes a twentieth of its distance to seven parts frequency and three parts reading each time |
| `AnomalyLaws.ValenceGrows` | kernel/src/anomaly.rs:143-149 | what a calm observation adds to the valence |
| `AnomalyLaws.ValenceDrops` | kernel/src/anomaly.rs:151-154 | a new transition costs a twentieth, never below zero |
| `Anomaly.ScoreFollowsStreak` | kernel/src/anomaly.rs:136-140 | a run of k new transitions lifts the score to at least min(k/10, 1) |
| `AnomalyLaws.ScoreRises` | kernel/src/anomaly.rs:136-140 | over any k suspicious observations in a row the score goes from s to exactly min(1, s + k/10) |
| `AnomalyLaws.ScoreFalls` | kernel/src/anomaly.rs:136-140 | over any k others in a row it goes to exactly max(0, s - k/50) |
| `AnomalyLaws.TenthSaturates` | kernel/src/anomaly.rs:136-140 | from zero it is full exactly from the tenth suspicious observation on |
| `Anomaly.TaskAnomaly.Observe` | kernel/src/anomaly.rs:94-160 | for every sequence of syscalls an alert is raised if and only if the last three transitions, all at observation 200 or later, had never occurred before; escalation if and only if the last three readings were chaotic; and all scores are those of the history |
| `Anomaly.StreakFits` | kernel/src/anomaly.rs:153-153 | the 32-bit streak counter cannot overflow |
| `Inference.LaneDot` | ai_subsystem/src/inference.rs:32-54 | eight lanes and a scalar tail give the plain dot product for every pair of lengths |
| `Inference.ScalarDot` | ai_subsystem/src/inference.rs:190-196 | the scalar loop adds the same dot product to the bias |
| `Inference.LaneDotInt8` | ai_subsystem/src/inference.rs:85-116 | the widened eight-lane form gives the scaled integer dot product for every pair of lengths |
| `Inference.ScalarDotInt8` | ai_subsystem/src/inference.rs:123-129 | and so does the scalar form |
| `Inference.QuantisedClose` | ai_subsystem/src/inference.rs:143-152 | a rounded weight lies in [-127, 127] within half a step of the weight, and the clamp never changes it |
| `InferenceLaws.RoundLaws` | ai_subsystem/src/inference.rs:143-152 | rounding is symmetric, exact on whole numbers and takes halves away from zero |
| `InferenceLaws.LargestIsFull` | ai_subsystem/src/inference.rs:134-152 | the largest weight of a row becomes 127 or -127, unless the row is tiny |
| `InferenceLaws.L1Single` | ai_subsystem/src/inference.rs:134-234 | the norm in the error bound, on an input with a single entry |
| `Inference.Quantize` | ai_subsystem/src/inference.rs:134-167 | every row of the quantised layer is the rounding of its row to that row's scale |
| `Inference.Forward` | ai_subsystem/src/inference.rs:171-199 | with and without the vector unit the outputs are the activated dot products, also for short and long inputs |
| `InferenceLaws.PreIsFlat` | ai_subsystem/src/inference.rs:171-199 | output i uses bias i and the weights from i * inSize on |
| `Inference.ForwardInt8` | ai_subsystem/src/inference.rs:205-234 | the same for the quantised layer |
| `InferenceLaws.PreInt8IsFlat` | ai_subsystem/src/inference.rs:205-234 | and so does its quantised form, with scale i |
| `Inference.QuantisationError` | ai_subsystem/src/inference.rs:134-234 | each quantised pre-activation is within scale/2 times the L1 norm of the input of the exact one, and so is each output for every activation but the sigmoid |
| `Inference.TanhMonotone` | ai_subsystem/src/inference.rs:257-261 | the rational tanh never decreases |
| `InferenceLaws.TanhGap` | ai_subsystem/src/inference.rs:257-261 | what it lacks to one is (3 - x)^3 / (27 + 9 x^2), and it is odd |
| `InferenceLaws.ReluIsPositivePart` | ai_subsystem/src/inference.rs:237-248 | ReLU is the positive part: never negative, never below its argument, equal to one of the two |
| `Inference.ActivationContracts` | ai_subsystem/src/inference.rs:237-261 | linear, ReLU and the rational tanh never spread two values apart |
| `Inference.TanhRangeIff` | ai_subsystem/src/inference.rs:257-261 | the rational tanh lies in [-1, 1] if and only if its argument lies in [-3, 3] |
| `Inference.TanhOvershoots` | ai_subsystem/src/inference.rs:257-261 | at 3.5 it exceeds 1 |
| `QwenTok.Tokenizer.Init` | kernel/src/lm_qwen_tok.rs:25-37 | the table indexes exactly the entries of 1 to 48 bytes, each under its last identifier |
| `QwenTok.Tokenizer.Encode` | kernel/src/lm_qwen_tok.rs:40-71 | the loop computes the greedy segmentation, nothing when no vocabulary is loaded |
| `QwenTok.Tokenizer.Decode` | kernel/src/lm_qwen_tok.rs:74-87 | the lossy conversion of the spellings up to the first stop token, unknown identifiers skipped |
| `QwenTok.LongestIsLongest` | kernel/src/lm_qwen_tok.rs:51-62 | no indexed entry that begins the text is longer than the chosen one |
| `QwenTok.BytesRoundTripIff` | kernel/src/lm_qwen_tok.rs:25-86 | the spelled bytes are those of the text if and only if its segmentation meets no fallback and no stop token, whatever duplicates the vocabulary holds |
| `QwenTok.RoundTripIff` | kernel/src/lm_qwen_tok.rs:25-88 | so decoding an encoding restores a string without U+FFFD if and only if its segmentation is like that |
| `QwenTok.CleanStringRoundTrip` | kernel/src/lm_qwen_tok.rs:25-88 | and any string with such a segmentation is restored |
| `QwenTok.ReplacementRestored` | kernel/src/lm_qwen_tok.rs:63-86 | the string U+FFFD may be restored by the lossy conversion although every byte falls back |
| `QwenTok.FallbackNeverItself` | kernel/src/lm_qwen_tok.rs:63-68 | a byte that falls back never has itself as its token's spelling |
| `QwenTok.FallbackLoses` | kernel/src/lm_qwen_tok.rs:63-68 | a one-token vocabulary loses a text |
| `QwenTok.LuckyRoundTrip` | kernel/src/lm_qwen_tok.rs:25-88 | with a byte token over 48 bytes a text can survive although every position falls back, so the exact condition needs short byte tokens |
| `Causal.RingHoldsLive` | kernel/src/causal.rs:43-54 | after any number of records the slot computed for the i-th newest edge holds it, for the last min(n, 512) edges |
| `Causal.CausalGraph.Record` | kernel/src/causal.rs:43-47 | appends to the log the ring stands for |
| `Causal.CausalGraph.LastWaker` | kernel/src/causal.rs:50-60 | the waker of the oldest live edge into the process |
| `Causal.OldestWakerLive` | kernel/src/causal.rs:50-60 | it is the waker of a live edge, and missing only when there is none |
| `Causal.LastWakerIff` | kernel/src/causal.rs:49-60 | it is the most recent waker if and only if the first and the last live edge into the process have one waker |
| `Causal.LastWakerStale` | kernel/src/causal.rs:49-60 | woken by 1 and then by 2, a process is said to have been woken by 1 |
| `Causal.CausalGraph.EdgesForPid` | kernel/src/causal.rs:170-183 | the newest edges that involve the process, cut at the limit |
| `CausalLaws.NewestFirst` | kernel/src/causal.rs:170-183 | the list of a process holds every edge that starts or ends there, each after exactly the newer ones |
| `Causal.LimitKeptIff` | kernel/src/causal.rs:170-183 | no more edges than asked for, unless none was asked for and there is one |
| `Causal.CausalGraph.PredictSuccessors` | kernel/src/causal.rs:148-166 | exactly the processes woken at least twice in the last 64 edges with fewer than four likelier rivals, likeliest first |
| `CausalLaws.WokenCounts` | kernel/src/causal.rs:148-166 | the count behind a prediction is the number of edges between the two processes |
| `Causal.CausalGraph.FanoutPids` | kernel/src/causal.rs:251-261 | exactly the processes woken in the last 64 edges, ascending |
| `Causal.CausalGraph.WakerChain` | kernel/src/causal.rs:228-242 | a duplicate-free path of live edges of at most depth + 1 processes that only ends at the limit, at nobody, at process 0 or before a cycle |
| `Causal.ChainUnique` | kernel/src/causal.rs:228-242 | there is only one such chain |
| `Habits.OthersKeep` | kernel/src/causal.rs:148-166 | a wakeup by somebody else that pushes no edge of a process out of the 64-edge window leaves its prediction alone |
| `Habits.SuccessorsNext` | kernel/src/causal.rs:148-166 | what a wakeup does to its waker's prediction, from the counts before it: who enters and who is pushed out |
| `Habits.SuccessorsKeptIff` | kernel/src/causal.rs:148-166 | the prediction stays if and only if the woken process does not enter it |
| `Habits.SuccessorsQuitIff` | kernel/src/causal.rs:148-166 | and when an edge drops out of the window, if and only if its process would not enter again |
| `Habits.FewHabits` | kernel/src/causal.rs:148-166 | with fewer than four habits a process enters exactly at its second wakeup and nobody is pushed out |
| `JobControl.RunInverse` | kernel/src/job_control.rs:39-46 | over every run of group calls the two maps are exact inverses, both decided by the last call that names a process |
| `JobControl.GroupAfter` | kernel/src/job_control.rs:39-46 | after setpgid(p, 0) a process is in its own group only, after setpgid(p, g) in group g only, after its exit in none |
| `JobControl.Jobs.SetPgid` | kernel/src/job_control.rs:39-46 | the two maps after a move, group 0 meaning the process itself |
| `JobControl.Jobs.CleanupPid` | kernel/src/job_control.rs:133-139 | the two maps after an exit, the process number truncated to 32 bits |
| `JobControl.Jobs.GetPgid` | kernel/src/job_control.rs:49-51 | the process's group, or the process itself |
| `JobControl.Jobs.GroupMembers` | kernel/src/job_control.rs:143-145 | exactly the members, ascending |
| `JobControl.Jobs.TcSetPgrp` | kernel/src/job_control.rs:56-97 | members end at -15, others they habitually wake at -8, what only the old group covered at 0, everybody else unchanged |
| `JobControl.Jobs.StopJob` | kernel/src/job_control.rs:104-113 | one stop signal to each member, and the foreground given up exactly when it was this group |
| `JobControl.Jobs.ContinueJobFg` | kernel/src/job_control.rs:124-130 | one continue signal to each member, and the foreground moves |
| `JobControl.ForegroundKeeps` | kernel/src/job_control.rs:56-97 | if every task has exactly the bonus its place earns, it still has after the foreground moves to any group |
| `JobControl.RegroupKeepsIff` | kernel/src/job_control.rs:39-46 | a group call keeps that true if and only if it does not move the process into or out of the foreground group |
| `JobControl.BonusLeaks` | kernel/src/job_control.rs:39-46 | a process that leaves the foreground group keeps its -15 |
| `JobControl.MoveSetsCovered` | kernel/src/job_control.rs:56-97 | a foreground move sets right exactly the processes that the old or the new group contains or habitually wakes |
| `JobControl.MoveNumbers` | kernel/src/job_control.rs:56-97 | -15 for the new group's members, -8 for others a member habitually wakes, 0 for what only the old group contained |
| `JobControl.LeakSurvives` | kernel/src/job_control.rs:56-97 | so a leaked adjustment survives every later foreground move, with any regrouping and wakeups in between, until the process is covered again |
| `JobControl.StrangerWakeupKeeps` | kernel/src/job_control.rs:79-91 | a wakeup by a process outside the foreground group, with no member's edge leaving the window, keeps all bonuses right |
| `JobControl.MemberWakeupIff` | kernel/src/job_control.rs:79-91 | a wakeup by a member keeps them right if and only if the woken process does not enter the member's prediction, or its bonus and that of the process it pushes out stay earned |
| `JobControl.SecondWakeupIff` | kernel/src/job_control.rs:79-91 | for a member with fewer than four habits they go wrong exactly at its second wakeup of a live task still at 0 |
| `JobControl.WakeupNotFollowed` | kernel/src/job_control.rs:79-91 | a member wakes a task a second time, and the task stays at 0 |
| `IntelStorage.RleCompress` | kernel/src/intel_storage.rs:218-232 | the output decodes to the data, is a list of maximal runs of 1 to 255 and at most twice as long |
| `StorageLaws.OneRun` | kernel/src/intel_storage.rs:218-232 | a run is written as its length, then its byte |
| `IntelStorage.CanonicalUnique` | kernel/src/intel_storage.rs:218-232 | there is only one such list for any data |
| `IntelStorage.CanonicalShortest` | kernel/src/intel_storage.rs:218-232 | and no list of runs with the same meaning is shorter |
| `IntelStorage.RecencyGoneIff` | kernel/src/intel_storage.rs:50-55 | the recency part of the heat is gone if and only if 3,600,000 seconds have passed since the last access |
| `IntelStorage.AfterOneHour` | kernel/src/intel_storage.rs:50-55 | after one hour a thousandth of it has decayed |
| `StorageLaws.AccessWorth` | kernel/src/intel_storage.rs:50-55 | of two recent files the one with d more accesses that is s seconds older is hotter if and only if 1000 d exceeds s |
| `IntelStorage.ScoreMonotoneIff` | kernel/src/intel_storage.rs:50-55 | more accesses never cool a file down if and only if the addition does not wrap |
| `IntelStorage.HottestTurnsCold` | kernel/src/intel_storage.rs:50-55 | a file accessed 18446744073709551 times is colder than one never used |
| `IntelStorage.PlaceOf` | kernel/src/intel_storage.rs:141-147 | in the sorted list place i is held by the file with exactly i hotter files, ties by path |
| `StorageLaws.FirstDifference` | kernel/src/intel_storage.rs:138-147 | paths are compared at their first difference, a proper prefix first |
| `IntelStorage.Store.RebalanceTiers` | kernel/src/intel_storage.rs:138-161 | each file gets the tier of its place and keeps everything else; the tiers hold n/10, n/2 and 4n/5 files, counted from the fastest |
| `IntelStorage.HotterNeverSlower` | kernel/src/intel_storage.rs:138-161 | a strictly hotter file is never in a slower tier |

## Left out

- IEEE rounding, NaN, and the transcendental functions: floats are reals, and exponentials, softmax and the bit-level sigmoid are parameters.
- HotLock.StepRefines: each atomic access and each critical section is one step in a sequentially consistent order; reordering allowed by relaxed atomics is not modelled.
- HotStale.PlacedRunRefines: gives no moment to a stale removal that would only fit in front of an overwrite (`HotStale.FitsIff` says when one does), because two such removals could not both be placed there.
- ElfLayout.LoadSections: assumes that no cursor wraps and no section is placed below the load address, which the source does not check.
- ElfModule.ApplyEntry: assumes that the addresses of the entry do not wrap.
- ElfModule.ApplyTable: assumes that the table lies inside the file and its addresses do not wrap.
- ElfModule.ApplyTables: assumes the same of every table.
- ElfModule.RelocateModule: assumes that section and relocation addresses do not wrap and that relocation tables lie inside the file, which the source does not check before it reads; NOBITS sections get an address but no room, as in the source.
- ElfModule.ImageBytes: assumes power-of-two alignments, without which sections may overlap.
- QwenTok.RoundTripIff: of the lossy conversion it assumes that valid bytes stay as they are and that bytes which change get a U+FFFD. Assumes that byte tokens are at most 48 bytes long and that there are at most 2^32 tokens.
- Anomaly.TaskAnomaly.Observe: the bigram and marginal counters are unbounded, where the source's 32-bit counters would overflow after 2^32 equal transitions.
- QwenRun.Run.Forward: norms, projections, the rotation by position, the feed-forward part and the output head are arbitrary functions of one position; `QwenMat.MatmulAdd` is the product they use.
- QwenRun.Run.Generate: sampling is an arbitrary function of the logits and the tokens so far; the quality gate after decoding is not modelled.
- QwenMat.ParseItems: starts after the header and the embedded tokenizer.
- AutoSecurity.Monitor.OnMemoryBomb: the killing of the process and the log file are not modelled.
- Inference.QuantisationError: makes no claim for the sigmoid, whose exponential is a bit trick.
- JobControl.Jobs.TcSetPgrp: no wakeup is recorded while the call runs.
- JobControl.MemberWakeupIff: stated for wakeups that push no member's edge out of the window; `Habits.SuccessorsQuitIff` says when such a loss changes a prediction.
- GlaPrefetch.GlaPageState.OnFault: the gradient step and the output head are not modelled beyond what they are given, nor is the map from processes to states.
- IntelStorage: access hooks, the prefetch queue and the compression pass.
- Causal: `predict_next_wake`, reports and I/O error attribution, which repeat the modelled queries.
- BuildSys: the Makefile parser, variable expansion and the runner.
- Drivers, virtual file system, memory manager, boot code and loaders, which act on hardware or on parts outside these files; and the keyword and template modules, which have no specification to state.
