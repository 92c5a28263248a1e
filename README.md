# Apertium trigram part-of-speech taggers, modelled in Dafny

This project models the core of apertium's trigram tagging. It covers:

- the second-order hidden Markov model tagger `HMM2`;
- its two sliding-window relatives, `LSWPoST` and `SWPoST`;
- the container that holds a trigram tagger's data, `TaggerDataTrigram`, and the binary model file it reads and writes;
- the reader of tag-definition (TSX) files, `TSXReaderTrigram`.

The HMM2 tagger covers:

- registering ambiguity classes from a dictionary;
- writing and reading the class list;
- Kupiec's unsupervised initialisation;
- supervised initialisation from a tagged text;
- applying the forbid and enforce-after rules to the transition tensor;
- the bookkeeping of a Baum-Welch pass;
- the Viterbi decoder, with its buffer of pending words and its flushes at unambiguous anchors.

The sliding-window taggers cover:

- registering the dictionary;
- the initial count of the windows;
- a training pass;
- the choice of the middle tag of each window.

Words are values `Word(surface, tags)`; a word with no tags is unknown and takes the open class. An ambiguity class is a set of tag numbers. The collection of classes (`Collection`) is a sequence of distinct sets, and `output[c]` returns the id of `c`, appending `c` first when it is new. The probability tensors are `array3<real>`. The model file is a sequence of items: numbers, reals, strings, and opaque blobs for the parts written by code outside this model. A TSX document is the sequence of events an XML text reader reports.

Modules, one per file:

| module | file | models |
|---|---|---|
| `Common` | common.dfy | tags, words, classes; ordered iteration of a tag set |
| `TaggerRecords` | records.dfy | forbid and enforce rules, pattern-list operations, tables |
| `AmbiguityClasses` | ambiguity.dfy | the class collection, `read_dictionary`'s registration, `find_similar_ambiguity_class` |
| `Windows` | windows.dfy | the sliding windows of LSWPoST/SWPoST, the running maximum |
| `ModelFile` | model_file.dfy | the model file format: encoder, decoder, round trip |
| `TaggerData` | tagger_data.dfy | class `TaggerDataTrigram` |
| `Hmm2Classes` | hmm2_classes.dfy | `read_ambiguity_classes`, `write_ambiguity_classes`, `read_dictionary` |
| `Hmm2Rules` | hmm2_rules.dfy | `HMM2::apply_rules` |
| `Hmm2Kupiec` | hmm2_kupiec.dfy | `init_probabilities_kupiec` up to smoothing |
| `Hmm2Supervised` | hmm2_supervised.dfy | `init_probabilities_from_tagged_text` up to smoothing |
| `Hmm2Train` | hmm2_train.dfy | `HMM2::train` without its arithmetic |
| `Hmm2Tagger` | hmm2_tagger.dfy | `HMM2::tagger` (Viterbi with flushes) |
| `Lswpost` | lswpost.dfy | `LSWPoST` |
| `Swpost` | swpost.dfy | `SWPoST` |
| `TsxEvents` | tsx_events.dfy | the TSX reader as functions over the event sequence |
| `TsxReader` | tsx_reader.dfy | class `TsxReaderTrigram`, each method proved against `TsxEvents` |

## Model

| member | source | states |
|---|---|---|
| Common.Asc | apertium/hmm2.cc:912-917 | the order in which a `std::set<TTag>` is iterated: ascending, listing exactly the elements of the set |
| Common.AscendingSame | apertium/hmm2.cc:912-917 | two ascending lists of the same tags are the same list, so the iteration order is unique |
| Common.AscLength | apertium/hmm2.cc:912-917 | the iteration lists every tag of the set exactly once |
| Common.SetMin | apertium/hmm2.cc:937-938 | `*tags.begin()` of a non-empty set is its least element |
| Common.AscendingTags | apertium/hmm2.cc:912-917 | the loop that lists a set in iteration order yields `Asc(s)` |
| Common.ClassesOf | apertium/hmm2.cc:881-884 | each word's class is its tags, or the open class when the word is unknown |
| Common.MinTagFrom | apertium/hmm2.cc:937-938 | the upward scan from `lo` yields a member of the set that is at most every member |
| Common.MinTag | apertium/swpost.cc:339 | the first tag of a non-empty class is in the class and is its least tag |
| AmbiguityClasses.IndexFrom | apertium/hmm2.cc:616 | the position of the first occurrence of a class, or -1 exactly when the collection lacks it |
| AmbiguityClasses.Lookup | apertium/hmm2.cc:616 | `output[c]` names `c`; a known class leaves the collection unchanged and gives its id; a new class is appended at the end; the collection stays duplicate-free |
| AmbiguityClasses.RegisterDictionary | apertium/hmm2.cc:613-638 | the earlier classes keep their ids. Registered: every non-empty dictionary class, the open class, and one singleton per tag below N. Nothing else is added, and the classes stay distinct. |
| AmbiguityClasses.FindSimilarFrom | apertium/hmm2.cc:1030-1045 | the scan of `find_similar_ambiguity_class` from id k with the size and class kept so far: a class replaces the kept one when it is a strict subset of `c` larger than the kept size (characterised by `FindSimilarFromSpec`) |
| AmbiguityClasses.FindSimilar | apertium/hmm2.cc:1024-1047 | `find_similar_ambiguity_class(c)` over the first M classes, starting from the open class and size -1 (characterised by `FindSimilarSpec` and `FindSimilarRegistered`) |
| AmbiguityClasses.FindSimilarFromSpec | apertium/hmm2.cc:1024-1047 | the scan from `k` keeps its class unless a later strict subset is larger; otherwise it returns the earliest of the largest |
| AmbiguityClasses.FindSimilarSpec | apertium/hmm2.cc:1024-1047 | the open class when no class among the first m is a strict subset of `c` (the open class may also be returned as the best candidate); otherwise the largest such subset, the earliest among equals |
| AmbiguityClasses.FindSimilarRegistered | apertium/hmm2.cc:1024-1047 | the class returned is the open class or one of the first m registered classes |
| AmbiguityClasses.Subset | apertium/hmm2.cc:1032-1037 | the inner loop answers exactly whether every tag of `a` is a tag of `c` |
| AmbiguityClasses.FindSimilarClass | apertium/hmm2.cc:1024-1047 | the loop computes the fallback class that `FindSimilarSpec` characterises |
| Windows.Slide | apertium/lswpost.cc:107-148 | one window per word that has a neighbour on both sides; unknown words take the open class |
| Windows.RegisteredStep | apertium/lswpost.cc:124-132 | a window whose classes are registered extends a registered prefix |
| Windows.BestSpec | apertium/lswpost.cc:446-460 | the running maximum keeps its initial tag when no score exceeds the start; otherwise it picks the first candidate of largest score |
| Windows.CopyInto | apertium/lswpost.cc:153-159 | every cell of the tagger data's tensor gets the scratch tensor's value |
| Windows.BestOfListed | apertium/lswpost.cc:446-460 | from a start every score beats, over an ascending list, the choice has the largest score and is the smallest such tag |
| Windows.SlideWithin | apertium/lswpost.cc:107-148 | the windows of words whose tags lie below N have classes whose tags lie below N |
| ModelFile.Encode | apertium/tagger_data_trigram.cc:456-602 | the items `write` produces for an image, section after section (`DecodeEncode` proves that `Decode` inverts it) |
| ModelFile.EncFront | apertium/tagger_data_trigram.cc:460-494 | the open class as differences from the previous id, the forbid rules and the tag names (inverted by `DecFront`, `FrontRoundTrip`) |
| ModelFile.EncForbid | apertium/tagger_data_trigram.cc:471-486 | a forbid rule as tagi, tagj and tagk, a missing third tag written as 999 (`ForbidRoundTrip`, `SentinelCollision`) |
| ModelFile.EncMiddle | apertium/tagger_data_trigram.cc:497-530 | the tag-index entries, the enforce rules and the prefer rules, each counted (`MiddleRoundTrip`) |
| ModelFile.EncTensors | apertium/tagger_data_trigram.cc:533-585 | constants, classes, N and M, A densely and B as (i, j, k, value) entries (`TensorsRoundTrip`) |
| ModelFile.EncTail | apertium/tagger_data_trigram.cc:589-600 | the pattern list, then the discard list (`TailRoundTrip`) |
| ModelFile.EncDiscard | apertium/tagger_data_trigram.cc:591-600 | the discard list, written only when it is non-empty (`DiscardRoundTrip`) |
| ModelFile.DecFront | apertium/tagger_data_trigram.cc:313-339 | reads the open class by adding each number to the running id, the forbid rules and the tag names |
| ModelFile.DecForbid | apertium/tagger_data_trigram.cc:322-331 | reads a forbid rule, a third tag of 999 becoming the missing-tag marker |
| ModelFile.DecMiddle | apertium/tagger_data_trigram.cc:342-371 | reads the tag-index entries, the enforce rules and the prefer rules |
| ModelFile.DecBEntry | apertium/tagger_data_trigram.cc:423-433 | reads one B entry; indices outside the N×N×M block make the file malformed |
| ModelFile.DecTail | apertium/tagger_data_trigram.cc:437-451 | reads the pattern list, then the discard list if the file goes on |
| ModelFile.DecDiscard | apertium/tagger_data_trigram.cc:439-451 | the discard list, empty when the file ends before it |
| ModelFile.Decode | apertium/tagger_data_trigram.cc:309-453 | a successful parse has the shape `write` gives: ascending open class, A of N·N·N reals, every B entry inside the N×N×M block |
| ModelFile.DecReals | apertium/tagger_data_trigram.cc:398-408 | a successful read of c reals yields exactly c |
| ModelFile.DecRows | apertium/tagger_data_trigram.cc:398-408 | a successful read yields r rows of c reals |
| ModelFile.DecCube | apertium/tagger_data_trigram.cc:398-408 | a successful read yields a d0×d1×d2 block |
| ModelFile.DecBEntries | apertium/tagger_data_trigram.cc:423-433 | a successful read yields c entries, each inside the block |
| ModelFile.DecTensors | apertium/tagger_data_trigram.cc:375-433 | the tensors read have the sizes N and M read just before them |
| ModelFile.UnmentionedIsZero | apertium/tagger_data_trigram.cc:411-419 | a B cell that no stored entry names keeps the 0 it was filled with |
| ModelFile.LastWins | apertium/tagger_data_trigram.cc:423-433 | when entries are stored in turn, a cell takes the value of the last entry that names it |
| ModelFile.DeltasRoundTrip | apertium/tagger_data_trigram.cc:460-468 | the open class written as differences reads back as itself |
| ModelFile.IntsRoundTrip | apertium/tagger_data_trigram.cc:507-522 | a counted list of numbers reads back as itself |
| ModelFile.StrsRoundTrip | apertium/tagger_data_trigram.cc:489-494 | a counted list of strings reads back as itself |
| ModelFile.ForbidRoundTrip | apertium/tagger_data_trigram.cc:471-486 | a forbid rule whose third tag is not 999 reads back as itself |
| ModelFile.ForbidsRoundTrip | apertium/tagger_data_trigram.cc:471-486 | the forbid list reads back as itself |
| ModelFile.EntriesRoundTrip | apertium/tagger_data_trigram.cc:497-504 | the tag-index entries read back as themselves |
| ModelFile.EnforceRoundTrip | apertium/tagger_data_trigram.cc:507-522 | an enforce rule reads back as itself |
| ModelFile.EnforcesRoundTrip | apertium/tagger_data_trigram.cc:507-522 | the enforce list reads back as itself |
| ModelFile.RealsRoundTrip | apertium/tagger_data_trigram.cc:539-549 | a row of reals reads back as itself |
| ModelFile.RowsRoundTrip | apertium/tagger_data_trigram.cc:539-549 | a plane of reals reads back as itself |
| ModelFile.CubeRoundTrip | apertium/tagger_data_trigram.cc:539-549 | the dense tensor A reads back as itself |
| ModelFile.BEntriesRoundTrip | apertium/tagger_data_trigram.cc:552-585 | the sparse B entries read back as themselves |
| ModelFile.DiscardRoundTrip | apertium/tagger_data_trigram.cc:439-451 | the discard list reads back as itself; it is written as nothing exactly when it is empty, and a file that ends after the pattern list reads with an empty list |
| ModelFile.FrontRoundTrip | apertium/tagger_data_trigram.cc:460-494 | open class, forbid rules and tag names read back as themselves |
| ModelFile.MiddleRoundTrip | apertium/tagger_data_trigram.cc:497-530 | tag index, enforce rules and prefer rules read back as themselves |
| ModelFile.TensorsRoundTrip | apertium/tagger_data_trigram.cc:533-585 | constants, classes, N, M, A and B read back as themselves |
| ModelFile.TailRoundTrip | apertium/tagger_data_trigram.cc:589-600 | the pattern list and the discard list read back as themselves |
| ModelFile.DecodeEncode | apertium/tagger_data_trigram.cc:456-602 | reading a written file gives back exactly the image written |
| ModelFile.SentinelCollision | apertium/tagger_data_trigram.cc:481-484 | a three-label forbid rule whose third tag is 999 reads back as a two-label rule |
| TaggerData.EntriesOf | apertium/tagger_data_trigram.cc:497-504 | the tag index is listed as entries that enumerate the map, each key once |
| TaggerData.CollectStored | apertium/tagger_data_trigram.cc:552-585 | B's stored entries in the order `write` emits them: the cells whose class contains their tag |
| TaggerData.CopyBlock | apertium/tagger_data_trigram.cc:237-268 | a fresh tensor holding the leading block of the source tensor |
| TaggerData.Fill | apertium/tagger_data_trigram.cc:398-408 | the tensor holds the block read, cell by cell |
| TaggerData.LoadTensors | apertium/tagger_data_trigram.cc:391-433 | fresh tensors: A holds the dense values; B holds 0 except the last stored value of each named cell |
| TaggerData.TaggerDataTrigram.constructor | apertium/tagger_data_trigram.cc:76-82 | an empty store: no tensors, N = M = 0, every table empty |
| TaggerData.TaggerDataTrigram.Destroy | apertium/tagger_data_trigram.cc:45-74 | both tensors released, N = M = 0, nothing else changed |
| TaggerData.TaggerDataTrigram.SetProbabilities | apertium/tagger_data_trigram.cc:219-271 | N and M replaced. The tensors are absent exactly when N or M is 0. Otherwise they are fresh, and filled from the given tensors when there are any. |
| TaggerData.TaggerDataTrigram.Copy | apertium/tagger_data_trigram.cc:30-43 | every member is taken from the other store except the discard list, which keeps its old value |
| TaggerData.TaggerDataTrigram.CopyTables | apertium/tagger_data_trigram.cc:32-41 | open class, rules, tag names, tag index, constants, classes and pattern list are taken from the other store |
| TaggerData.TaggerDataTrigram.CopyAll | apertium/tagger_data_trigram.cc:30-43 | every member, the discard list included, is taken from the other store |
| TaggerData.TaggerDataTrigram.Assign | apertium/tagger_data_trigram.cc:99-107 | assigning a store to itself changes nothing; otherwise it is destroyed and copied |
| TaggerData.TaggerDataTrigram.AddDiscard | apertium/tagger_data_trigram.cc:605-608 | the discard list gains the tag sequence at its end |
| TaggerData.TaggerDataTrigram.Write | apertium/tagger_data_trigram.cc:456-602 | the items written are the encoding of an image that describes the store and can be written |
| TaggerData.TaggerDataTrigram.Read | apertium/tagger_data_trigram.cc:309-453 | on a file that parses: the lists are appended to, the tag index is updated entry by entry, A is dense and B is zero except where entries name it. The result is true exactly when the file parses; the failure branch is the model's own (see Left out). |
| TaggerData.TaggerDataTrigram.ReadTables | apertium/tagger_data_trigram.cc:313-371 | the open class, rules, tag names and prefer rules are appended to, and the tag index is updated entry by entry |
| TaggerData.EnumeratesTail | apertium/tagger_data_trigram.cc:497-504 | an enumeration without its first entry enumerates the map without that key |
| TaggerData.MergeRemoved | apertium/tagger_data_trigram.cc:342-347 | adding one key and then the rest of a map adds the whole map |
| TaggerData.ApplyEnumeration | apertium/tagger_data_trigram.cc:342-347 | reading an enumeration of a map into another map merges the two |
| TaggerData.TagIndexRestored | apertium/tagger_data_trigram.cc:342-347 | reading the written tag index into an empty map restores it |
| TaggerData.StoredRestores | apertium/tagger_data_trigram.cc:411-433 | the B entries `write` stores read back into every cell whose class holds its tag, and 0 elsewhere |
| TaggerData.DescribedRoundTrips | apertium/tagger_data_trigram.cc:456-602 | an image describing a store without the 999 collision reads back as itself |
| TaggerData.TablesRestored | apertium/tagger_data_trigram.cc:313-371 | the tables read into an empty store from a file that describes another store are that store's tables |
| TaggerData.DescribedCells | apertium/tagger_data_trigram.cc:539-585 | a describing image holds A cell by cell, and holds each B cell's value when its class holds its tag, 0 otherwise |
| TaggerData.TensorsRestored | apertium/tagger_data_trigram.cc:391-433 | the tensors read back hold A, and hold B on the cells whose class holds their tag |
| TaggerData.ReadBack | apertium/tagger_data_trigram.cc:309-453 | reading a well-formed file into a new store gives the image's contents |
| TaggerData.WriteReadable | apertium/tagger_data_trigram.cc:456-602 | what `write` stores for a store decodes to the image that describes it |
| TaggerData.WriteThenRead | apertium/tagger_data_trigram.cc:309-602 | writing a store and reading the file into a new store restores all the tables, N, M, the pattern list, the discard list and A. B is restored on the cells whose class holds their tag and is 0 elsewhere. |
| Hmm2Classes.EncodeClasses | apertium/hmm2.cc:114-126 | the classes file: for each class in id order its size, then its tags ascending (`WriteAmbiguityClasses` is proved to produce it) |
| Hmm2Classes.DecodeClasses | apertium/hmm2.cc:87-111 | the classes read back: a size and that many tags per class until the stream ends, an empty class skipped (`DecodeEncode`, `ClassesRoundTrip`) |
| Hmm2Classes.NonEmpty | apertium/hmm2.cc:87-111 | the non-empty classes in id order: exactly what reading keeps |
| Hmm2Classes.DecodeEncode | apertium/hmm2.cc:87-126 | reading back what `write_ambiguity_classes` wrote gives the non-empty classes, in order |
| Hmm2Classes.ClassesRoundTrip | apertium/hmm2.cc:87-126 | the class ids survive a write and a read exactly when no class is empty; otherwise fewer classes come back |
| Hmm2Classes.WriteAmbiguityClasses | apertium/hmm2.cc:114-126 | writes each class as its size followed by its tags in ascending order, in id order, with no count of classes in front |
| Hmm2Classes.ReadClass | apertium/hmm2.cc:96-102 | reads `ntags` tags, or as many as the stream holds |
| Hmm2Classes.DecodeStep | apertium/hmm2.cc:92-107 | one class of the stream and where the next one starts |
| Hmm2Classes.ReadOne | apertium/hmm2.cc:92-107 | one turn of the loop adds the class unless it is empty |
| Hmm2Classes.ReadClasses | apertium/hmm2.cc:92-107 | the loop collects the non-empty classes of the stream, in order |
| Hmm2Classes.ReadAmbiguityClasses | apertium/hmm2.cc:87-111 | the non-empty classes are appended to the collection without lookup; N becomes the size of the tag index and M the size of the collection |
| Hmm2Classes.ReadDictionary | apertium/hmm2.cc:600-645 | the registration of `RegisterDictionary`, then tensors sized N = size of the tag index and M = number of classes |
| Hmm2Rules.Normalised | apertium/hmm2.cc:582-594 | a row divided by its sum when the sum is positive, all zero otherwise |
| Hmm2Rules.Masked | apertium/hmm2.cc:539-578 | a row with ZERO in every cell some forbid or enforce rule hits |
| Hmm2Rules.SumScaled | apertium/hmm2.cc:582-594 | dividing every cell by s divides the sum by s |
| Hmm2Rules.NormalisedSumsToOne | apertium/hmm2.cc:582-594 | a row with positive sum sums to 1 after normalisation |
| Hmm2Rules.NormalisedRow | apertium/hmm2.cc:582-594 | after normalisation a row sums to 1 when its sum was positive, and is all zero otherwise |
| Hmm2Rules.ForbidOne | apertium/hmm2.cc:539-553 | a cell becomes ZERO exactly when the rule hits it, i.e. (x,y) or (y,z) is the rule's pair for a two-label rule, and (x,y,z) is its triple for a three-label one; every other cell is unchanged |
| Hmm2Rules.ForbidAll | apertium/hmm2.cc:539-553 | a cell becomes ZERO exactly when some forbid rule hits it, and is otherwise unchanged |
| Hmm2Rules.EnforcePair | apertium/hmm2.cc:556-578 | the scan of `tagsj` (and of `tagsk` for each match) zeroes exactly the cells the rule forbids for the current pair |
| Hmm2Rules.EnforceOne | apertium/hmm2.cc:556-578 | with no `tagsk`: the cells (x, tagi, z) with z in `tagsj` become ZERO, i.e. the transitions the rule names, unlike the LSWPoST rule at lswpost.cc:221-240, which zeroes the tags outside `tagsj`. With `tagsk`: the cells with x = tagi, y in `tagsj` and z outside `tagsk` become ZERO. Every other cell is unchanged. |
| Hmm2Rules.EnforceAll | apertium/hmm2.cc:556-578 | a cell becomes ZERO exactly when some enforce rule hits it |
| Hmm2Rules.NormaliseRows | apertium/hmm2.cc:582-594 | every row is replaced by its normalised form |
| Hmm2Rules.NormaliseRow | apertium/hmm2.cc:582-594 | one row summed and then divided by its sum, or cleared |
| Hmm2Rules.ApplyRules | apertium/hmm2.cc:529-597 | every row of A becomes the normalised form of the old row with the rule-hit cells set to ZERO |
| Hmm2Kupiec.Scan | apertium/hmm2.cc:178-231 | the collection and the ids after `output[c]` for each class in turn |
| Hmm2Kupiec.ScanIds | apertium/hmm2.cc:178-231 | the collection only grows, and each id names its class afterwards |
| Hmm2Kupiec.PairsAdjacent | apertium/hmm2.cc:202-228 | a class pair is counted exactly as often as it occurs adjacently |
| Hmm2Kupiec.TriplesAdjacent | apertium/hmm2.cc:227-229 | a class triple is counted exactly as often as it occurs adjacently |
| Hmm2Kupiec.CountTotals | apertium/hmm2.cc:178-241 | after n ≥ 1 words, n+1 class occurrences, n pairs and n-1 triples are counted |
| Hmm2Kupiec.CountStep | apertium/hmm2.cc:225-234 | one word counts its id together with the two ids before it |
| Hmm2Kupiec.Read | apertium/hmm2.cc:178-231 | what the counting loop has read after nw words: the end-of-sentence id first, then one id per word |
| Hmm2Kupiec.CountWord | apertium/hmm2.cc:209-234 | one word of the loop: its class registered or the open class, counted with the two before |
| Hmm2Kupiec.CountRest | apertium/hmm2.cc:207-241 | the loop after the first word: stops at a new class (fatal), at the corpus-length end-of-sentence stop, or at the end of the text |
| Hmm2Kupiec.Advance | apertium/hmm2.cc:207-241 | one turn of the loop: it stops or counts the word |
| Hmm2Kupiec.KupiecCount | apertium/hmm2.cc:175-241 | as written: an empty text ends at the NULL dereference of the first word; otherwise the text is counted up to the stop |
| Hmm2Kupiec.KupiecCountChecked | apertium/hmm2.cc:175-241 | with the first word checked: the counting ends normally or at a new class, never at a NULL word; an empty text counts nothing |
| Hmm2Kupiec.CountFirst | apertium/hmm2.cc:182-241 | the first word and the rest of the loop count the text up to the stop |
| Hmm2Kupiec.RestCounted | apertium/hmm2.cc:207-241 | where the loop leaves off, the counting phase is complete |
| Hmm2Kupiec.RowSum2Add | apertium/hmm2.cc:277-301 | adding x to one counter adds x to its row's sum and changes no other row sum |
| Hmm2Kupiec.AddKeepsBalance | apertium/hmm2.cc:291-297 | the three increments of the spreading loop keep tag counts equal to the row sums of pairs, and pairs equal to the row sums of triples |
| Hmm2Kupiec.SpreadRow | apertium/hmm2.cc:290-297 | over the tags t3 of C3: each tag triple (t1, t2, t3) gains x; the pair (t1, t2) and the tag t1 gain x once per tag of C3; nothing else changes; balance is kept for tags below N |
| Hmm2Kupiec.SpreadPlane | apertium/hmm2.cc:287-298 | over C2×C3: each tag triple of {t1}×C2×C3 gains x, each pair of {t1}×C2 gains x for each tag of C3, the tag t1 gains x for each pair of C2×C3; nothing else changes |
| Hmm2Kupiec.SpreadTriple | apertium/hmm2.cc:284-299 | one class triple's share x: every tag triple of C1×C2×C3 gains x, every tag pair of C1×C2 gains x size(C3) times, every tag of C1 gains x size(C2)·size(C3) times, every other counter is unchanged; the counts stay balanced for tags below N |
| Hmm2Kupiec.SpreadClassTriple | apertium/hmm2.cc:280-299 | the body for class triple (k1, k2, k3): its share count/(size(C1)·size(C2)·size(C3)) spread as `SpreadTriple` says, i.e. each counter gains its `Gain` |
| Hmm2Kupiec.SpreadClassRow | apertium/hmm2.cc:280-300 | over k3 < M: each counter gains the sum of its `Gain` over the class triples (k1, k2, k3) |
| Hmm2Kupiec.SpreadClassPlane | apertium/hmm2.cc:278-300 | over k2, k3 < M: each counter gains the sum of its `Gain` over the class triples (k1, k2, k3) |
| Hmm2Kupiec.TagTriples | apertium/hmm2.cc:277-301 | every class triple (k1, k2, k3) below M adds count/(size(C1)·size(C2)·size(C3)) to every tag triple of C1×C2×C3, and the same to the pair and tag each such triple starts with: each counter is the sum of its `Gain` over all class triples. With tags below N the counts are balanced: each tag count is its row sum of pair counts, each pair count its row sum of triple counts |
| Hmm2Kupiec.TagCountForEmission | apertium/hmm2.cc:247-253 | each tag below N gets the shares of the classes below M that hold it |
| Hmm2Kupiec.Emissions | apertium/hmm2.cc:307-313 | `emis[i][k]` is set exactly when tag i is in class k, to the count of class k divided by its size (`EmitShare`); nothing else is set |
| Hmm2Kupiec.EmissionRows | apertium/hmm2.cc:247-313 | each tag's emission count is the sum of its row of `emis` |
| Hmm2Kupiec.SpreadEmitRow | apertium/hmm2.cc:327-333 | over the tags t2 of C2: `emis2[t1][t2][k]` and the pair count for emission of (t1, t2) gain x; nothing else changes, and the balance is kept for k below M |
| Hmm2Kupiec.SpreadEmit | apertium/hmm2.cc:324-334 | one class pair's share x, emitted as class k: `emis2[t1][t2][k]` and the count of (t1, t2) gain x for each tag pair of C1×C2; nothing else changes |
| Hmm2Kupiec.TagPairEmissions | apertium/hmm2.cc:320-336 | every class pair (k1, k2) below M adds count/(size(C1)·size(C2)) to `emis2[t1][t2][k2]` for each tag pair of C1×C2: `emis2[a][b][k]` is the sum of `EmitGain` over k1 < M for k < M and 0 otherwise; each pair count for emission is the sum of its row of `emis2`, which is set only on classes holding the second tag |
| Hmm2Kupiec.EmitStep | apertium/hmm2.cc:320-336 | the two increments of the emission loop keep it balanced |
| Hmm2Kupiec.ReadExtends | apertium/hmm2.cc:178-241 | the counting phase only appends to the collection it starts from |
| Hmm2Kupiec.InitProbabilitiesKupiec | apertium/hmm2.cc:141-377 | the counting phase as written (`CountedText`: the class, pair and triple counts of the text read), then, when it ends normally: the tag, pair and triple counts spread from the class triples as `TagTriples` says and balanced for tags below N; `emis[i][k]` = count of k / size(C_k) when i is in class k; `emis2` spread from the class pairs as `TagPairEmissions` says; the counts for emission are the row sums |
| Hmm2Supervised.Gold | apertium/hmm2.cc:459-467 | the gold tag is -1 for an unknown word, the previous gold tag for an ambiguous word, and the word's only tag otherwise |
| Hmm2Supervised.Golds | apertium/hmm2.cc:437-467 | the end-of-sentence tag twice, then one gold tag per word |
| Hmm2Supervised.GoldsPrefix | apertium/hmm2.cc:437-467 | the gold tags of a prefix of the text are a prefix of its gold tags |
| Hmm2Supervised.GoldsStep | apertium/hmm2.cc:459-467 | word i's gold tag follows from the one before by the three cases of `Gold` |
| Hmm2Supervised.StepTriple | apertium/hmm2.cc:470-474 | a word counts the triple (tag3, tag2, tag1) exactly when tag1 and tag2 are known and tag3 is positive |
| Hmm2Supervised.StepEmission | apertium/hmm2.cc:495-505 | a word counts an emission exactly when both tags are known and tag1 lies in its untagged class |
| Hmm2Supervised.TallySizes | apertium/hmm2.cc:470-505 | the counters grow together, at most one entry per word |
| Hmm2Supervised.TransitionsCounted | apertium/hmm2.cc:470-474 | a tag triple is counted exactly when three consecutive gold tags form it, the two newest known and the oldest positive |
| Hmm2Supervised.EmissionsCounted | apertium/hmm2.cc:477-505 | an emission is counted exactly when some word has those gold tags, both known, and an untagged class with that id holding tag1 |
| Hmm2Supervised.OnlyOpenClassAdded | apertium/hmm2.cc:477-494 | only the open class can be new to the collection; any other new class is fatal |
| Hmm2Supervised.TagWord | apertium/hmm2.cc:455-507 | one aligned word pair: the gold tag advanced and the word counted |
| Hmm2Supervised.InitProbabilitiesFromTaggedText | apertium/hmm2.cc:379-527 | both texts walked in step from tag1 = tag2 = eos; a surface mismatch stops the pass; the counts are those of the words walked |
| Hmm2Supervised.CountedInClass | apertium/hmm2.cc:470-505 | every counted emission pairs a tag with a registered class holding it, and every counted triple has a positive oldest tag |
| Hmm2Train.Pending | apertium/hmm2.cc:756-808 | the queue of pending classes, as the forward pass grows it and each anchor cuts it |
| Hmm2Train.LastAnchor | apertium/hmm2.cc:756-808 | the last word that is an anchor, or -1 |
| Hmm2Train.PendingEnds | apertium/hmm2.cc:756-808 | the queue never has fewer than two entries; the oldest is the end-of-sentence class and the last is the class of the last word |
| Hmm2Train.PendingShape | apertium/hmm2.cc:756-808 | the queue is the end-of-sentence class, then the class before the last anchor, then the classes from that anchor on |
| Hmm2Train.PendingStep | apertium/hmm2.cc:756-808 | the queue after a word follows from the queue before it |
| Hmm2Train.Count | apertium/hmm2.cc:732 | the count of the word's class id goes up by one |
| Hmm2Train.Push | apertium/hmm2.cc:756-808 | at an anchor the queue becomes [oldest, last, class]; otherwise the class is appended |
| Hmm2Train.ReadWord | apertium/hmm2.cc:725-808 | one registered word: its id counted, its class queued, and whether it is an anchor |
| Hmm2Train.Train | apertium/hmm2.cc:670-838 | reads up to a new class (fatal) or the corpus-length end-of-sentence stop; the queue is `Pending` of the classes read; each class id's count is its number of occurrences; the final warning is given |
| Hmm2Tagger.DecoderClasses | apertium/hmm2.cc:881-898 | the class of each word as the decoder sees it |
| Hmm2Tagger.DecoderClassesRegistered | apertium/hmm2.cc:881-898 | with the open class registered, `output[tags]` never appends and every id is in range |
| Hmm2Tagger.Open | apertium/hmm2.cc:935-965 | where the buffer of pending words starts: just after the last flushed anchor |
| Hmm2Tagger.OpenStep | apertium/hmm2.cc:935-965 | an anchor empties the buffer; any other word leaves its start unchanged |
| Hmm2Tagger.StartSingle | apertium/hmm2.cc:935-965 | after a flush, or at the first word, the word two back has a single tag |
| Hmm2Tagger.PathBound | apertium/hmm2.cc:912-931 | no best path is longer than the buffer |
| Hmm2Tagger.ProductNonNegative | apertium/hmm2.cc:918-920 | a score through non-negative probabilities is not negative |
| Hmm2Tagger.ShapedExtend | apertium/hmm2.cc:922-927 | a path to word p-1, extended with a tag of word p, assigns each word a tag of its own class |
| Hmm2Tagger.Zip | apertium/hmm2.cc:935-965 | the buffered words paired with the tags of a path |
| Hmm2Tagger.Emitted | apertium/hmm2.cc:935-965 | everything the decoder writes after n words: the flush of each anchor in turn (`EmittedCovers` proves each word up to the last anchor is written once, in order, with a tag of its class) |
| Hmm2Tagger.FlushedShape | apertium/hmm2.cc:935-965 | a flush writes each buffered word once, in order, with a tag of its own class |
| Hmm2Tagger.ZipShaped | apertium/hmm2.cc:935-965 | buffered words zipped with a shaped path are each written once, in order, with a tag of their class |
| Hmm2Tagger.CoversAppend | apertium/hmm2.cc:935-965 | writing words o..n-1 after the first o covers the first n words |
| Hmm2Tagger.FlushCovers | apertium/hmm2.cc:935-965 | a flush at an anchor completes the cover up to that word |
| Hmm2Tagger.EmittedCovers | apertium/hmm2.cc:840-979 | with non-negative probabilities and no empty class, the words up to the last flush are each written once, in order, with a tag of their own class |
| Hmm2Tagger.EmittedStep | apertium/hmm2.cc:935-965 | one word adds its flush, if any, to what was written |
| Hmm2Tagger.RelaxOne | apertium/hmm2.cc:918-927 | the score through the next tag two back is taken when the score so far is `<=` it (the last best wins ties) |
| Hmm2Tagger.RelaxCell | apertium/hmm2.cc:915-929 | the cell (j, i) gets the best score over the tags two back, in increasing order, and its path |
| Hmm2Tagger.Clear | apertium/hmm2.cc:903-908 | the slot the word writes is cleared and the other slot is untouched |
| Hmm2Tagger.Put | apertium/hmm2.cc:926-928 | one cell of the slot is written; what the word reads is untouched |
| Hmm2Tagger.RelaxColumn | apertium/hmm2.cc:914-930 | every tag j of the word before gets its cell (j, i) |
| Hmm2Tagger.Induction | apertium/hmm2.cc:912-931 | every tag of the word gets its column, and the slot then holds the word's scores |
| Hmm2Tagger.ClassFor | apertium/hmm2.cc:881-898 | the word's tags, or the open class when it is unknown; a new class is replaced by its similar class; the id is that class's id |
| Hmm2Tagger.Emit | apertium/hmm2.cc:945-958 | the buffered words are written with the tags of a path, one per tag |
| Hmm2Tagger.OtherNext | apertium/hmm2.cc:903-908 | without a flush, the next word reads the slot this word wrote |
| Hmm2Tagger.ReadyNext | apertium/hmm2.cc:903-931 | without a flush, the next word reads this word's scores |
| Hmm2Tagger.ReadyRestart | apertium/hmm2.cc:959-963 | after a flush, the next word starts from the flushed pair with score 1 |
| Hmm2Tagger.Flush | apertium/hmm2.cc:935-965 | at an anchor the best path to its only pair is written for the buffered words, and the next word starts from that pair |
| Hmm2Tagger.ClearFor | apertium/hmm2.cc:903-908 | the slot this word writes is the one the next word reads, and clearing it keeps what this word reads |
| Hmm2Tagger.Scores | apertium/hmm2.cc:881-931 | the word's class and id are found, and its slot is filled with its scores from the word before |
| Hmm2Tagger.Finish | apertium/hmm2.cc:935-965 | at an anchor the buffer is flushed and emptied, otherwise kept; the decoder is ready for the next word |
| Hmm2Tagger.Step | apertium/hmm2.cc:870-970 | one word buffered, scored and, at an anchor, flushed |
| Hmm2Tagger.DecoderFits | apertium/hmm2.cc:881-898 | the classes and ids the decoder uses fit the model when the open class is registered |
| Hmm2Tagger.Tagger | apertium/hmm2.cc:840-979 | the classes and ids fit the model, and what is written is the sequence of flushes at the anchors (`Emitted`), which `EmittedCovers` shows writes each word up to the last anchor once, in order, with a tag of its own class |
| Lswpost.ForbidOne | apertium/lswpost.cc:206-215 | a cell becomes ZERO exactly when the forbid rule hits it |
| Lswpost.Listed | apertium/lswpost.cc:224-230 | the scan answers whether the tag is in `tagsj` |
| Lswpost.EnforceOne | apertium/lswpost.cc:221-240 | a cell becomes ZERO exactly when the enforce rule hits it |
| Lswpost.ApplyRules | apertium/lswpost.cc:197-244 | ZERO in every cell some rule hits, every other cell as before; nothing is renormalised |
| Lswpost.SumsNonNegative | apertium/lswpost.cc:345-354 | a sum of non-negative cells is not negative |
| Lswpost.AccRight | apertium/lswpost.cc:345-354 | the innermost loop adds D[l][r][t] for every right tag r |
| Lswpost.AccLeftRight | apertium/lswpost.cc:345-354 | the two inner loops add the score of middle tag t |
| Lswpost.WindowSum | apertium/lswpost.cc:345-354 | the normalisation is the window's mass under D |
| Lswpost.AddWindow | apertium/lswpost.cc:356-362 | `c` is added to every combination of the window, each cell once |
| Lswpost.ScaleBy | apertium/lswpost.cc:373-379 | every cell of D is multiplied by its new count |
| Lswpost.TextWindows | apertium/lswpost.cc:107-148 | one window per word with a right neighbour, the first word's left neighbour being the opening word |
| Lswpost.MassStep | apertium/lswpost.cc:135-141 | one more window adds its share to every cell |
| Lswpost.Spread | apertium/lswpost.cc:135-141 | the three loops over the classes add the window's share to every combination |
| Lswpost.SpreadListed | apertium/lswpost.cc:135-141 | the same once the classes are listed in iteration order |
| Lswpost.InitProbabilities | apertium/lswpost.cc:83-163 | with no word nothing changes. Otherwise an unregistered class stops the pass fatally with D untouched. Otherwise D is the sum of the windows' shares. |
| Lswpost.WindowMassOne | apertium/lswpost.cc:135-141 | a window of non-empty classes of valid tags adds exactly one unit of mass to D |
| Lswpost.GainStep | apertium/lswpost.cc:356-362 | one more window adds its reciprocal mass to the cells it covers |
| Lswpost.Reinforce | apertium/lswpost.cc:345-362 | a window's mass under D, then its reciprocal added to every combination |
| Lswpost.NewCounts | apertium/lswpost.cc:333-367 | the new counts of the windows, or failure at the first unregistered class |
| Lswpost.Train | apertium/lswpost.cc:292-383 | with no word nothing changes. Otherwise an unregistered class stops the pass with D untouched. Otherwise D is multiplied cell by cell by what the windows add under the old D. |
| Lswpost.Reweight | apertium/lswpost.cc:373-379 | D becomes the old D times the new counts, cell by cell |
| Lswpost.GainNonNegative | apertium/lswpost.cc:356-362 | the new counts are never negative when D is not |
| Lswpost.Uncovered | apertium/lswpost.cc:83-383 | a cell no window covers gets nothing from the initialisation and is zeroed by training |
| Lswpost.Scores | apertium/lswpost.cc:446-460 | the score of each middle tag summed over the left and right tags |
| Lswpost.ChooseTag | apertium/lswpost.cc:446-460 | the choice loop equals the first largest score from -1 |
| Lswpost.TagWindow | apertium/lswpost.cc:421-486 | the fallback for an unregistered right class, then the choice |
| Lswpost.TagWindows | apertium/lswpost.cc:421-486 | one tag per window, in order |
| Lswpost.Tagger | apertium/lswpost.cc:398-489 | as written: one tag per word with a right neighbour; a text of one word ends at the NULL dereference |
| Lswpost.TaggerGuarded | apertium/lswpost.cc:398-489 | with the right word checked first: a text of one word yields no tag and ends normally |
| Lswpost.PickIsBest | apertium/lswpost.cc:446-460 | with D non-negative, a window's pick is one of its middle tags, of the largest score, and the smallest such tag |
| Lswpost.ChoiceIsBest | apertium/lswpost.cc:446-460 | the same for any lists of left and right tags |
| Swpost.AddMid | apertium/swpost.cc:128-136 | `inc` is added to [a][b][t] for every middle tag, each cell once |
| Swpost.CountsStep | apertium/swpost.cc:128-136 | one more window adds its hit to every count, and its context to the context counts |
| Swpost.HitsAtMostSeen | apertium/swpost.cc:128-136 | a window counts for a tag only when it counts for the context |
| Swpost.RatioInUnit | apertium/swpost.cc:144-151 | the values the initialisation leaves in C lie in [0, 1] |
| Swpost.CountWindow | apertium/swpost.cc:128-136 | the middle tags counted in the window's context, and the context counted once |
| Swpost.Divide | apertium/swpost.cc:144-151 | every count divided by its context count |
| Swpost.CountAll | apertium/swpost.cc:100-141 | the counts and context counts of the windows, or failure at the first unregistered class |
| Swpost.InitProbabilities | apertium/swpost.cc:65-162 | with fewer than three words C is unchanged. Otherwise an unregistered class stops the pass with C untouched. Otherwise C holds the counts divided by the context counts. |
| Swpost.MidSum | apertium/swpost.cc:275-279 | the normalisation is the window's mass under C |
| Swpost.GainStep | apertium/swpost.cc:280-284 | one more window adds its reciprocal mass to the cells it hits |
| Swpost.ReinforceWindow | apertium/swpost.cc:275-284 | a window's mass under C, then its reciprocal added to each middle tag |
| Swpost.NewCounts | apertium/swpost.cc:225-289 | the new values of the windows, or failure at the first unregistered class |
| Swpost.Train | apertium/swpost.cc:211-302 | with fewer than three words C is unchanged. Otherwise an unregistered class stops the pass with C untouched. Otherwise C holds what the windows add under the old C. |
| Swpost.GainNonNegative | apertium/swpost.cc:280-284 | the new values are never negative when C is not |
| Swpost.Grown | apertium/swpost.cc:368-369 | the collection after the left and right class of each window are looked up |
| Swpost.Scores | apertium/swpost.cc:371-379 | the score C[a][b][t] of each middle tag, one per tag (0 for a cell outside C, see Left out) |
| Swpost.Choices | apertium/swpost.cc:342-386 | the tag chosen for each window, each with the collection its predecessors left |
| Swpost.ChooseTag | apertium/swpost.cc:371-379 | the choice loop equals the first largest score from the given start |
| Swpost.TagWindow | apertium/swpost.cc:368-379 | the two lookups, then the choice |
| Swpost.ChoicesStep | apertium/swpost.cc:342-386 | a window's choice uses the collection the windows before it left, which it then grows |
| Swpost.TagWindows | apertium/swpost.cc:342-386 | the tag of each window and the collection left |
| Swpost.Tagger | apertium/swpost.cc:310-393 | as written: fewer than three words end at a NULL dereference; an empty first class ends the pass; otherwise the first word's least tag and the windows' choices from 0, then the NULL dereference of the last word |
| Swpost.TaggerFixed | apertium/swpost.cc:310-393 | the words checked before use and the last word taken from the loop's word: one tag per word, the windows choosing from -1, the last word its least tag |
| Swpost.NoPositiveScore | apertium/swpost.cc:371-379 | as written, a window none of whose middle tags scores above 0 gets tag 0, whatever its class |
| Swpost.UnseenContext | apertium/swpost.cc:368-379 | with both neighbouring classes registered and C holding 0 for every middle tag, the window gets tag 0, which is not one of its tags when 0 is not in the class |
| Swpost.ChoiceIsBest | apertium/swpost.cc:371-379 | with C non-negative, the corrected choice is one of the window's middle tags, of the largest score, and the smallest such tag |
| TsxEvents.NodeOf | apertium/tsx_reader_trigram.cc:77-86 | the node an event name reported by the reader stands for |
| TsxEvents.WellFormedGrows | apertium/tsx_reader_trigram.cc:114-142 | ids that name entries stay valid when the tag names grow |
| TsxEvents.Lookup | apertium/tsx_reader_trigram.cc:204 | `tag_index["TAG_" + label]`: a missing key is added with the id 0 |
| TsxEvents.LookupGrows | apertium/tsx_reader_trigram.cc:204 | a lookup keeps every id, and in well-formed tables yields a valid one |
| TsxEvents.NewTagIndex | apertium/tsx_reader_trigram.cc:114-123 | fails exactly when "TAG_"+tag is indexed; otherwise appends it and indexes it by its position |
| TsxEvents.NewDefTag | apertium/tsx_reader_trigram.cc:126-135 | as `NewTagIndex`, with the bare name in the tag names |
| TsxEvents.DefinesExtends | apertium/tsx_reader_trigram.cc:114-135 | a definition keeps every entry and every valid id |
| TsxEvents.NewConstant | apertium/tsx_reader_trigram.cc:138-142 | the constant gets the size of the tag names and is appended to them; the index is left alone |
| TsxEvents.ClearTagIndex | apertium/tsx_reader_trigram.cc:63-74 | both tables emptied, then the seven reserved tags get the ids 0..6 in order |
| TsxEvents.ReservedIndexUnique | apertium/tsx_reader_trigram.cc:63-74 | an index holding exactly the reserved tags at their positions is the reserved index |
| TsxEvents.ReservedInTurn | apertium/tsx_reader_trigram.cc:63-74 | the seven `newTagIndex` calls on emptied tables all succeed and leave the tables `ClearTagIndex` describes |
| TsxEvents.Dots | apertium/tsx_reader_trigram.cc:155 | every dot becomes "><" |
| TsxEvents.TagPattern | apertium/tsx_reader_trigram.cc:155 | a `tags` attribute "a.b" is stored as "<a><b>" |
| TsxEvents.DotsRoundTrip | apertium/tsx_reader_trigram.cc:155 | a string without angle brackets is recovered from its rewriting |
| TsxEvents.TagPatternRoundTrip | apertium/tsx_reader_trigram.cc:155 | a tags attribute without angle brackets is recovered from its pattern |
| TsxEvents.DotsAppend | apertium/tsx_reader_trigram.cc:155 | the rewriting works piece by piece |
| TsxEvents.NextSignificant | apertium/tsx_reader_trigram.cc:559-563 | the number of events read once the reader stands on the next event that is not text or a comment |
| TsxEvents.PatternEvent | apertium/tsx_reader_trigram.cc:503-541 | one pass of the preferences or discard loop |
| TsxEvents.PatternSection | apertium/tsx_reader_trigram.cc:503-541 | the loop runs up to the section's end tag |
| TsxEvents.PatternSectionStep | apertium/tsx_reader_trigram.cc:503-541 | one pass on the next event, case by case |
| TsxEvents.PatternSectionAppends | apertium/tsx_reader_trigram.cc:503-541 | a pattern section appends exactly the rewritten patterns of its element tags, in document order, and changes nothing else |
| TsxEvents.PatternSectionStops | apertium/tsx_reader_trigram.cc:503-541 | a pattern section ends at the first end tag of the section |
| TsxEvents.EnforceEvent | apertium/tsx_reader_trigram.cc:438-501 | label items go to `tagsj` while the counter is 1 and to `tagsk` while it is 2; an `enforce-after` end tag pushes the rule |
| TsxEvents.EnforceSection | apertium/tsx_reader_trigram.cc:438-501 | the loop up to `</enforce-rules>` |
| TsxEvents.EnforceSectionGrows | apertium/tsx_reader_trigram.cc:438-501 | `procEnforce` keeps every tag id valid |
| TsxEvents.TagskAccumulates | apertium/tsx_reader_trigram.cc:438-501 | as `tagsk` is never cleared, each rule's `tagsk` begins with the previous rule's |
| TsxEvents.LateLabelItemFails | apertium/tsx_reader_trigram.cc:438-501 | once a third label set is open, a label item is an error |
| TsxEvents.ReadLabelItem | apertium/tsx_reader_trigram.cc:350-391 | steps over text and comments, demands a `label-item`, and looks up its label |
| TsxEvents.ReadLabelItemGrows | apertium/tsx_reader_trigram.cc:350-391 | reading an item keeps every tag id, and its id is valid in well-formed tables |
| TsxEvents.LabelSequence | apertium/tsx_reader_trigram.cc:350-391 | two label items and an optional third make one forbid rule |
| TsxEvents.LabelSequenceEnd | apertium/tsx_reader_trigram.cc:376-391 | the optional third item, then the rule pushed |
| TsxEvents.RuleAt | apertium/tsx_reader_trigram.cc:376-391 | a `label-item` after the second item is the third; anything else leaves `tagk` as NO_TAGK |
| TsxEvents.LabelSequenceGrows | apertium/tsx_reader_trigram.cc:350-391 | a label sequence adds exactly one forbid rule and keeps every tag id |
| TsxEvents.ThirdItemOptional | apertium/tsx_reader_trigram.cc:350-391 | the first two items become `tagi` and `tagj`, and `tagk` is NO_TAGK when no third item follows |
| TsxEvents.ForbidTurn | apertium/tsx_reader_trigram.cc:394-435 | one pass of `procForbid`'s loop as written |
| TsxEvents.ForbidStalls | apertium/tsx_reader_trigram.cc:397-406 | on a `label-sequence` end tag a pass changes nothing and the loop condition still holds |
| TsxEvents.ExampleSequence | apertium/tsx_reader_trigram.cc:350-391 | on a concrete forbid section, the label sequence is read and the reader stands on `</label-sequence>` |
| TsxEvents.ForbidExampleStalls | apertium/tsx_reader_trigram.cc:394-435 | as written, after the example's label sequence the loop repeats the same pass forever |
| TsxEvents.ForbidSection | apertium/tsx_reader_trigram.cc:394-435 | the corrected loop steps over a `label-sequence` end tag and stops at `</forbid>` |
| TsxEvents.ForbidExampleRead | apertium/tsx_reader_trigram.cc:394-435 | the corrected loop reads the example's rule and stops at `</forbid>` |
| TsxEvents.DefLabelEvent | apertium/tsx_reader_trigram.cc:196-222 | an open `tags-item` inserts a pattern for the label's id; any `def-label` event ends the loop |
| TsxEvents.DefLabelItems | apertium/tsx_reader_trigram.cc:196-222 | `procDefLabel`'s loop |
| TsxEvents.TagsItem | apertium/tsx_reader_trigram.cc:204-205 | a `tags-item` appends an insertion of the definition's id with the item's lemma and tags to the pattern list |
| TsxEvents.LabelItem | apertium/tsx_reader_trigram.cc:253-254 | a `label-item` appends an insertion of the definition's id with the label's id |
| TsxEvents.SequenceEvent | apertium/tsx_reader_trigram.cc:249-276 | label and tags items become pattern entries; a `sequence` event ends the loop |
| TsxEvents.SequenceItems | apertium/tsx_reader_trigram.cc:249-276 | `procDefMult`'s inner loop |
| TsxEvents.DefMultPass | apertium/tsx_reader_trigram.cc:238-296 | one pass of the outer loop: an open `sequence` runs the inner loop between the begin and end calls |
| TsxEvents.SequenceBlock | apertium/tsx_reader_trigram.cc:245-278 | an open `sequence`: begin, inner loop, end |
| TsxEvents.DefMultItems | apertium/tsx_reader_trigram.cc:238-296 | the outer loop, up to `</def-mult>` |
| TsxEvents.Define | apertium/tsx_reader_trigram.cc:185-194 | the name gets the next id, and joins the open class unless `closed` is exactly "true" |
| TsxEvents.DefLabel | apertium/tsx_reader_trigram.cc:185-226 | `procDefLabel` |
| TsxEvents.DefMult | apertium/tsx_reader_trigram.cc:228-299 | `procDefMult` |
| TsxEvents.TagsetOpen | apertium/tsx_reader_trigram.cc:301-347 | the first loop, up to the `tagset` open tag, allowing only text, `tagger` and `tagset` events |
| TsxEvents.TagsetPass | apertium/tsx_reader_trigram.cc:301-347 | one pass of the second loop: a definition is read by its procedure; other events are skipped or are errors |
| TsxEvents.TagsetBody | apertium/tsx_reader_trigram.cc:301-347 | the second loop, up to `</tagset>` |
| TsxEvents.Tagset | apertium/tsx_reader_trigram.cc:301-347 | `procTagset` |
| TsxEvents.Next | apertium/tsx_reader_trigram.cc:559-563 | after a section: one step, then text and comments skipped |
| TsxEvents.ForbidPart | apertium/tsx_reader_trigram.cc:564-572 | (corrected forbid loop) the optional forbid section |
| TsxEvents.EnforcePart | apertium/tsx_reader_trigram.cc:573-581 | the optional enforce-rules section |
| TsxEvents.PreferencesPart | apertium/tsx_reader_trigram.cc:582-590 | the optional preferences section |
| TsxEvents.DiscardPart | apertium/tsx_reader_trigram.cc:591-597 | the optional discard-on-ambiguity section, entered only on its open tag |
| TsxEvents.Sections | apertium/tsx_reader_trigram.cc:559-597 | (corrected forbid loop) the sections after the tag set; they keep every tag id given and keep every id valid |
| TsxEvents.ConstantNamesDistinct | apertium/tsx_reader_trigram.cc:602-608 | the seven constant names are distinct |
| TsxEvents.AddConstants | apertium/tsx_reader_trigram.cc:602-608 | the constants appended in order |
| TsxEvents.ConstantsGrow | apertium/tsx_reader_trigram.cc:602-608 | appending constants only extends the tag names |
| TsxEvents.ConstantsAssigned | apertium/tsx_reader_trigram.cc:602-608 | each constant gets the position it is appended at, and that entry is its own name |
| TsxEvents.PunctuationAppends | apertium/tsx_reader_trigram.cc:610-614 | while the reserved tags keep their ids, the lookups add nothing and the five punctuation patterns are appended |
| TsxEvents.AddPunctuation | apertium/tsx_reader_trigram.cc:610-614 | one pattern per reserved punctuation tag, each looked up in the index (`PunctuationAppends`) |
| TsxEvents.ReservedLookup | apertium/tsx_reader_trigram.cc:610-614 | a reserved tag whose id is kept is found at its position |
| TsxEvents.PunctuationGrows | apertium/tsx_reader_trigram.cc:610-614 | the punctuation patterns keep every id valid |
| TsxEvents.Finish | apertium/tsx_reader_trigram.cc:602-616 | the constants, the punctuation patterns, then the transducer build (`FinishResult`) |
| TsxEvents.FinishResult | apertium/tsx_reader_trigram.cc:602-616 | the seven constants become the last tag names in order, each at its own position, and the pattern list ends with the punctuation patterns and the transducer build |
| TsxEvents.ClearedFacts | apertium/tsx_reader_trigram.cc:552-555 | the tables after the clearing are well formed and hold the reserved ids |
| TsxEvents.Finished | apertium/tsx_reader_trigram.cc:602-616 | the end of `read` once the sections are read |
| TsxEvents.ReadTsx | apertium/tsx_reader_trigram.cc:543-617 | (corrected forbid loop) `read`: the open class, forbid rules, tag index and enforce rules cleared, then the tag set, the optional sections in order, the constants and the punctuation patterns (`ReadTsxResult`) |
| TsxEvents.ReadCleared | apertium/tsx_reader_trigram.cc:557-617 | (corrected forbid loop) `read` once its tables are cleared (`ReadFrom`) |
| TsxEvents.ReadTsxResult | apertium/tsx_reader_trigram.cc:543-617 | (corrected forbid loop) after a successful read every id names a tag name, the reserved tags have the ids 0..6, the constants come last, and the pattern list ends with the punctuation patterns and the build |
| TsxEvents.ReadFrom | apertium/tsx_reader_trigram.cc:557-617 | (corrected forbid loop) `read` after the clearing, from tables holding the reserved ids |
| TsxEvents.FinishedSections | apertium/tsx_reader_trigram.cc:597-617 | (corrected forbid loop) what the end of `read` leaves after a well-formed tag set |
| TsxReader.TsxReaderTrigram.constructor | apertium/tsx_reader_trigram.cc:39-49 | a reader with empty tables, at the start of the document |
| TsxReader.TsxReaderTrigram.Step | apertium/tsx_reader_trigram.cc:77-86 | succeeds exactly when an event is left, and then reads it |
| TsxReader.TsxReaderTrigram.Advance | apertium/tsx_reader_trigram.cc:559-563 | stops on the next significant event, as `NextSignificant` says |
| TsxReader.TsxReaderTrigram.TagId | apertium/tsx_reader_trigram.cc:204 | the tag's id, as `TsxEvents.Lookup` gives it |
| TsxReader.TsxReaderTrigram.NewTagIndex | apertium/tsx_reader_trigram.cc:114-123 | the tables `TsxEvents.NewTagIndex` gives, or failure when the tag is indexed |
| TsxReader.TsxReaderTrigram.NewDefTag | apertium/tsx_reader_trigram.cc:126-135 | the tables `TsxEvents.NewDefTag` gives, or failure |
| TsxReader.TsxReaderTrigram.NewConstant | apertium/tsx_reader_trigram.cc:138-142 | the tables `TsxEvents.NewConstant` gives |
| TsxReader.TsxReaderTrigram.ClearTagIndex | apertium/tsx_reader_trigram.cc:63-74 | the tables `TsxEvents.ClearTagIndex` describes |
| TsxReader.TsxReaderTrigram.PreferEvent | apertium/tsx_reader_trigram.cc:509-537 | one pass of the loop, as `TsxEvents.PatternEvent` |
| TsxReader.TsxReaderTrigram.ProcPreferences | apertium/tsx_reader_trigram.cc:503-541 | the run `TsxEvents.PatternSection` gives for the prefer list |
| TsxReader.TsxReaderTrigram.DiscardEvent | apertium/tsx_reader_trigram.cc:151-179 | one pass of the loop, adding through `addDiscard` |
| TsxReader.TsxReaderTrigram.ProcDiscardOnAmbiguity | apertium/tsx_reader_trigram.cc:145-183 | the run `TsxEvents.PatternSection` gives for the discard list |
| TsxReader.TsxReaderTrigram.EnforceStep | apertium/tsx_reader_trigram.cc:444-497 | one pass of the loop, as `TsxEvents.EnforceEvent` |
| TsxReader.TsxReaderTrigram.ProcEnforce | apertium/tsx_reader_trigram.cc:438-501 | the run `TsxEvents.EnforceSection` gives; the rule starts with tagi 0 and the counter is never reset |
| TsxReader.TsxReaderTrigram.LabelItem | apertium/tsx_reader_trigram.cc:355-374 | the run `TsxEvents.ReadLabelItem` gives |
| TsxReader.TsxReaderTrigram.ProcLabelSequence | apertium/tsx_reader_trigram.cc:350-391 | the run `TsxEvents.LabelSequence` gives |
| TsxReader.TsxReaderTrigram.LabelSequenceEnd | apertium/tsx_reader_trigram.cc:376-391 | the run `TsxEvents.LabelSequenceEnd` gives |
| TsxReader.TsxReaderTrigram.RuleAt | apertium/tsx_reader_trigram.cc:376-389 | the rule `TsxEvents.RuleAt` gives |
| TsxReader.TsxReaderTrigram.ProcForbid | apertium/tsx_reader_trigram.cc:394-435 | the run of the corrected loop `TsxEvents.ForbidSection` |
| TsxReader.TsxReaderTrigram.Define | apertium/tsx_reader_trigram.cc:185-194 | the run `TsxEvents.Define` gives |
| TsxReader.TsxReaderTrigram.InsertTagsItem | apertium/tsx_reader_trigram.cc:204 | the pattern list gains the insertion of the tags item |
| TsxReader.TsxReaderTrigram.InsertLabelItem | apertium/tsx_reader_trigram.cc:253-254 | the pattern list gains the insertion of the label item's id |
| TsxReader.TsxReaderTrigram.DefLabelStep | apertium/tsx_reader_trigram.cc:196-222 | one pass, as `TsxEvents.DefLabelEvent` |
| TsxReader.TsxReaderTrigram.ProcDefLabel | apertium/tsx_reader_trigram.cc:185-226 | the run `TsxEvents.DefLabel` gives |
| TsxReader.TsxReaderTrigram.SequenceStep | apertium/tsx_reader_trigram.cc:249-276 | one pass, as `TsxEvents.SequenceEvent` |
| TsxReader.TsxReaderTrigram.SequenceLoop | apertium/tsx_reader_trigram.cc:249-276 | the run `TsxEvents.SequenceItems` gives |
| TsxReader.TsxReaderTrigram.SequenceBlock | apertium/tsx_reader_trigram.cc:245-278 | the run `TsxEvents.SequenceBlock` gives |
| TsxReader.TsxReaderTrigram.DefMultPass | apertium/tsx_reader_trigram.cc:238-296 | the run `TsxEvents.DefMultPass` gives |
| TsxReader.TsxReaderTrigram.ProcDefMult | apertium/tsx_reader_trigram.cc:228-299 | the run `TsxEvents.DefMult` gives |
| TsxReader.TsxReaderTrigram.TagsetOpen | apertium/tsx_reader_trigram.cc:301-347 | the run `TsxEvents.TagsetOpen` gives |
| TsxReader.TsxReaderTrigram.TagsetPass | apertium/tsx_reader_trigram.cc:301-347 | the run `TsxEvents.TagsetPass` gives |
| TsxReader.TsxReaderTrigram.ProcTagset | apertium/tsx_reader_trigram.cc:301-347 | the run `TsxEvents.Tagset` gives |
| TsxReader.TsxReaderTrigram.ForbidPart | apertium/tsx_reader_trigram.cc:564-572 | (corrected forbid loop) the run `TsxEvents.ForbidPart` gives |
| TsxReader.TsxReaderTrigram.EnforcePart | apertium/tsx_reader_trigram.cc:573-581 | the run `TsxEvents.EnforcePart` gives |
| TsxReader.TsxReaderTrigram.PreferencesPart | apertium/tsx_reader_trigram.cc:582-590 | the run `TsxEvents.PreferencesPart` gives |
| TsxReader.TsxReaderTrigram.DiscardPart | apertium/tsx_reader_trigram.cc:591-597 | the run `TsxEvents.DiscardPart` gives |
| TsxReader.TsxReaderTrigram.ReadSections | apertium/tsx_reader_trigram.cc:559-597 | (corrected forbid loop) the run `TsxEvents.Sections` gives |
| TsxReader.TsxReaderTrigram.NewConstants | apertium/tsx_reader_trigram.cc:602-608 | the tables `TsxEvents.AddConstants` gives |
| TsxReader.TsxReaderTrigram.PunctuationPatterns | apertium/tsx_reader_trigram.cc:610-614 | the five punctuation patterns appended, each looked up by its reserved tag |
| TsxReader.TsxReaderTrigram.Finish | apertium/tsx_reader_trigram.cc:602-616 | the tables `TsxEvents.Finished` gives |
| TsxReader.TsxReaderTrigram.Clear | apertium/tsx_reader_trigram.cc:552-555 | the open class and the rules cleared, with `ClearTagIndex` between them |
| TsxReader.TsxReaderTrigram.Read | apertium/tsx_reader_trigram.cc:543-617 | (corrected forbid loop) the run `TsxEvents.ReadTsx` gives for the document, whose outcome `TsxEvents.ReadTsxResult` characterises |

## Left out

- Streams and files: the morphological stream and the tagged and untagged texts are sequences of words. What a tagger writes is a sequence of (word, tag) pairs. Output formatting, `show_sf`, the debug prints and the progress dots are not modelled.
- XML parsing: the TSX document is the sequence of events the libxml text reader reports, with each event's name, kind and attributes. A parse error or an unexpected end of file ends the run with `Failed` (the source prints a message and exits).
- Binary encoding: the compressed integers and the endian-independent doubles of the model file are the items `Int`, `Real` and `Str`. A multi-byte integer's width is modelled only as the `Writable` bound.
- Components that are not part of this model: `ConstantManager`, `Collection`'s file format and `PatternList`, with `buildTransducer` and the transducer it builds. They are opaque values or recorded operations.
- Smoothing: `SmoothUtilsTrigram::calculate_smoothed_parameters` and `save_counts` are not part of this model. The initialisers and `train` return the counts they would pass to it.
- Floating point: the model uses exact reals. It has no rounding, no NaN and no `log` (so no log-likelihood `loli`). A division by zero gives 0.0. `ZERO` is the constant 1e-10.
- The arithmetic of `HMM2::train` (alpha, beta, gamma, xsi, phi) is left out. Only the queue of pending classes, the class counts and where reading stops are modelled.
- The sizing of D and C in the LSWPoST and SWPoST `read_dictionary` (lswpost.cc:246-290, swpost.cc:164-209) is left out; their registration is the HMM2 one, `AmbiguityClasses.RegisterDictionary`.
- `HMM2::filter_ambiguity_classes`, the `print_A`/`print_B` dumps, `log_add`, and the constructors and setters of the taggers are left out: they are I/O or plain field setters.
- TsxReader.TsxReaderTrigram.ClearTagIndex: the seven `newTagIndex` calls are a loop over the reserved names, in the source's order; the same holds for NewConstants (seven calls) and PunctuationPatterns (five).
- Hmm2Tagger.Tagger: the scores start at 0 rather than uninitialised. The debug message about words left ambiguous at the end of the text is not modelled (those words are never written, as in the source).
- Hmm2Kupiec.InitProbabilitiesKupiec: the balance of the tag counts is stated only when every class's tags lie below N. For a tag outside that range the source prints a message and still writes outside its arrays; the model's counters are maps, so such a write lands in a cell of its own.
- Hmm2Kupiec.TagTriples / Hmm2Kupiec.TagPairEmissions / Hmm2Kupiec.SpreadTriple: the shares are exact reals. The source adds the same double x once per tag triple, so its sums carry rounding that the model does not have; `Times` is the n-fold sum in exact arithmetic.
- Swpost.Scores / Swpost.UnseenContext / Swpost.Tagger: when a class of the window is new, swpost.cc:359-366 only prints an error, and `output[...]` then gives an id one past the end of C (sized at swpost.cc:206), so the read at swpost.cc:372 is outside the array and undefined. The model reads 0 there (`Windows.Cell`); nothing is claimed about what the source does in that case.
- TaggerData.WriteThenRead: requires that no three-label forbid rule has 999 as its third tag. The file format cannot tell such a rule from a two-label rule (`ModelFile.SentinelCollision`).
- TaggerData.TaggerDataTrigram.SetProbabilities: when no source tensor is given, the values of the fresh tensors are left unspecified, as the source leaves them uninitialised.
- TsxReader.TsxReaderTrigram.Read / TsxEvents.ReadTsx: the top-level read (with `ReadCleared`, `Sections`, `ForbidPart`, `ReadFrom`, `FinishedSections`, `ReadTsxResult`, and the reader's `ForbidPart` and `ReadSections`) runs the corrected forbid loop `ForbidSection`. As written (tsx_reader_trigram.cc:397-406, 564-566), `read` never returns on a document whose forbid section holds a label sequence; that stall is modelled only for the loop itself (`TsxEvents.ForbidTurn`, `ForbidStalls`, `ForbidExampleStalls`).
- TaggerData.TaggerDataTrigram.Read: the source has no failure result. On a short or corrupt file it has already appended to the open class, the rules and the tag index, and then reads on (or a `Collection`/`PatternList` read throws). The model's clean failure, with the tensors released and everything else unchanged, is the model's own; only the successful read follows the source.
- TaggerData.EntriesOf: the order of the tag-index entries is left unspecified (each key once). The source writes them in the map's key order (tagger_data_trigram.cc:497-504); the round trip does not depend on the order.
- TsxEvents.EnforceSection: the rule under construction starts with tagi 0 (`NoRule`), where `procEnforce` leaves it uninitialised until the first `enforce-after` tag (tsx_reader_trigram.cc:438-501).

## Findings

| source | as written | input that shows it | evidently intended | confidence | as-written member | corrected member |
|---|---|---|---|---|---|---|
| apertium/swpost.cc:329-331 | the first three words are dereferenced before they are checked for NULL | a text of fewer than three words | check the words before use; a short text yields its tags or nothing | not executed | Swpost.Tagger | Swpost.TaggerFixed |
| apertium/swpost.cc:389 | the last word is taken from `word_right`, which is NULL when the loop ends | any text of three or more words | take the last word from `word` | not executed | Swpost.Tagger | Swpost.TaggerFixed |
| apertium/swpost.cc:371-379 | the running maximum starts at 0 with tag 0, so a window with no positive score gets tag 0, outside its class | a window whose neighbouring classes are registered but whose C cells are all 0, e.g. a context never seen in training, with middle class {3, 5} (`Swpost.UnseenContext`) | start at -1, as the LSWPoST tagger does, so the choice is a tag of the class | not executed | Swpost.NoPositiveScore | Swpost.ChoiceIsBest |
| apertium/lswpost.cc:417 | the right word is dereferenced before it is checked for NULL | a text of one word | check it as the loop does for later words; one word yields no tag | not executed | Lswpost.Tagger | Lswpost.TaggerGuarded |
| apertium/hmm2.cc:186 | the first word is dereferenced without a NULL check | an empty training text | check it like the later words; an empty text counts nothing | not executed | Hmm2Kupiec.KupiecCount | Hmm2Kupiec.KupiecCountChecked |
| apertium/tsx_reader_trigram.cc:397-406 | on a `label-sequence` end tag the loop takes the branch that does nothing and never steps, so it stands on the same event forever | a `forbid` section with one `label-sequence` (`TsxEvents.ExampleSequence`) | step over the end tag like text | not executed | TsxEvents.ForbidExampleStalls | TsxEvents.ForbidExampleRead |
| apertium/tagger_data_trigram.cc:30-43 | `copy` takes every member but the discard list, so a copy or an assignment keeps the target's old discard list | assigning a store with a non-empty discard list to an empty one | copy the discard list as well | not executed | TaggerData.TaggerDataTrigram.Copy | TaggerData.TaggerDataTrigram.CopyAll |
