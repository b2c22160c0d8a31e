# Verified model of the synthetic-data pipeline

A Dafny model of the parts of the synthetic-data repository where a mistake is easiest to make and hardest to
see: the salvage of JSON objects from model replies, the reference digest, the B.2 fidelity layer with its
free-text pools, the B.1 retrieval index, sampler and seed derivation, the Beam pipeline with its dead letters
and BLOCKER gate, and the agreement between the schema-driven record generator and the schema-driven record
model. `dafny verify dfyconfig.toml` checks everything.

## How it is organised

| files | what they model |
|---|---|
| `JsonText`, `JsonSyntax`, `JsonGrammar`, `JsonNumber`, `JsonParts`, `JsonDumps`, `JsonWeight` | `json.loads` as a recursive-descent reader over code points, concrete syntax trees of JSON texts (every blank, spelling and surplus comma), their agreement in both directions, the grammar of numbers and literals, `json.dumps`, and the exact round trip |
| `JsonRepair`, `JsonScan` | the trailing-comma repair, the string-aware brace matcher, the left-to-right search |
| `Sorting`, `KeyOrder`, `Digest` | what `sort_keys=True` forgets, and the text that is fed to SHA-256 |
| `Options`, `Reals`, `Rounding`, `Schema`, `Collections` | optional values, rounding over exact reals, column definitions, order-keeping de-duplication |
| `Fidelity`, `ProfileLaws`, `FreeText`, `B2Engine` | profiling and clamping, and what each promises, the pool cache and pool blending, row assembly |
| `VectorIndex`, `SeedMix`, `B1Sampling` | exact top-k search, the FNV-1a style sub-seeds, the pure-Python sampler |
| `Stages`, `Pipeline`, `PrimaryKeys`, `RunSummary` | the request loop and the three DoFns, whole runs as a step system, how often a key lands, the summary and the gate |
| `SchemaRecord`, `DecimalLimits`, `RecordShape` | which records the strategies generate, which the derived model accepts, for which schemas the first imply the second, and what an accepted record looks like |

Code that loops or updates fields is a method or a class, proved against a function of its inputs or of its old
state; what that function promises is then proved about all inputs and all runs. Random draws, model replies,
engine behaviour, Pandera's verdicts, re-batching and the order of the stages are arbitrary inputs. Every
induction is spelled out, so lemmas carry `{:induction false}`.

## Where the code and its own words differ

The model follows the code; each difference is a lemma.

- `mlx_client.py:213` says that no later `{` can do better than an unbalanced one, and the docstring (lines
  198-203) promises the first balanced span that parses. `{ {}` refutes both (`LaterBraceCanDoBetter`).
  `ExtractVersusDocumentation` gives the exact condition, `TruncationSafety` what the early return is good for.
- The repair runs on the whole candidate, strings included: `[",]",]` loses a comma of its string
  (`RepairCanSpoilAString`). `LenientRender` says exactly when a value survives.
- `json.loads(json.dumps(v))` joins a surrogate pair that `v` holds as two code points (`SplitPairIsJoined`), so
  every round trip holds exactly for values without one.
- `enforce_value` is a projection except where `_representative` returns an observed minimum that was never
  rounded to the column's places (`EnforceTwiceCanMove`, `EnforceTwice`).
- `config/thresholds.yml:34-37` calls `pk.duplicate` a BLOCKER, but the pipeline reports duplicated keys as
  `schema.batch`; no run ever emits the blocker (`DuplicatesNeverBlock`), and a flagged duplicate goes through the
  gate even when it tolerates no failure (`DuplicatesPassTheGate`). Duplicates in different batches all land
  (`SameKeyLandsTwice`); a key lands at most once exactly when no two checked batches carry it in a single row each
  (`LandsAtMostOnce`).
- The generator's `scale or 2`, a precision below the scale, a `max_length` of 0, a NULLABLE key column and a
  declared scale with a precision above the 28 digits of Python's decimal context each make the strategy produce
  records the model refuses; no other schema does (`SoundExactly`).
- The start value in `_mix_seed` is one digit short of the 64-bit offset basis of draft-eastlake-fnv, section 2;
  the separation properties do not depend on it.

## Model

| member | source | states |
|---|---|---|
| JsonSyntax.ParseRender | packages/sdfb-beam/src/sdfb_beam/handlers/mlx_client.py:255-256 | `json.loads`' reader meets the text of any valid tree, followed by anything: it takes exactly that text and returns what the tree spells, or fails when the tree has a surplus comma (RFC 8259, sections 2 to 7) |
| JsonSyntax.LoadsRender | packages/sdfb-beam/src/sdfb_beam/handlers/mlx_client.py:255-258 | a whole valid text is read as the value it spells, and rejected exactly when it has a surplus comma |
| JsonGrammar.ReadIsRendered | packages/sdfb-beam/src/sdfb_beam/handlers/mlx_client.py:255-256 | conversely, whatever the reader takes from the front of any text is the text of a valid tree without surplus commas that spells what was returned |
| JsonGrammar.LoadsExactly | packages/sdfb-beam/src/sdfb_beam/handlers/mlx_client.py:255-258 | for every text and value: `json.loads` returns the value exactly when the text is blanks around a valid tree without surplus commas that spells it |
| JsonNumber.NumberIsGrammar | packages/sdfb-beam/src/sdfb_beam/handlers/mlx_client.py:256 | a number token is an optional minus, a zero or digits not led by one, an optional point with digits, and an optional exponent with digits (RFC 8259, section 6), and nothing else is |
| JsonNumber.LongestNumber | packages/sdfb-beam/src/sdfb_beam/handlers/mlx_client.py:256 | at the front of any text the reader takes the longest prefix of that grammar, and none exactly when there is none |
| JsonParts.BodyIsGrammar | packages/sdfb-beam/src/sdfb_beam/handlers/mlx_client.py:256 | what may stand between quotes, and the units it spells, piece by piece: a plain character, one of eight two-character escapes, or four hexadecimal digits (RFC 8259, section 7) |
| JsonParts.DecodeSplit | packages/sdfb-beam/src/sdfb_beam/handlers/mlx_client.py:256 | units decode one by one, wherever the literal is cut, except inside an escaped surrogate pair |
| JsonParts.DecodeUnits | packages/sdfb-beam/src/sdfb_beam/handlers/mlx_client.py:256 | one unit is its code point, an escaped pair the code point whose halves it is |
| JsonParts.DictMeans | packages/sdfb-beam/src/sdfb_beam/handlers/mlx_client.py:256 | a decoded object has its keys in the order of their first occurrences, each with its last value (RFC 8259, section 4) |
| JsonParts.LenientMeans | packages/sdfb-beam/src/sdfb_beam/handlers/mlx_client.py:252-265 | on any text: what it spells, or, only when it spells nothing, what it spells without the commas before closing brackets |
| JsonDumps.DumpsIsRender | packages/sdfb-beam/src/sdfb_beam/io/digest.py:28 | the printer writes the text of one particular valid tree |
| JsonParts.ItemsJoined | packages/sdfb-beam/src/sdfb_beam/io/digest.py:28 | items are separated by a comma and one space |
| JsonParts.MembersJoined | packages/sdfb-beam/src/sdfb_beam/io/digest.py:28 | members are separated by a comma and one space |
| JsonParts.OneMember | packages/sdfb-beam/src/sdfb_beam/io/digest.py:28 | a key is a quoted literal with a colon and one space before its value |
| JsonParts.EscapesLook | packages/sdfb-beam/src/sdfb_beam/io/digest.py:28 | printed strings are printable ASCII: seven characters take a two-character escape, other printable ASCII stands for itself |
| JsonParts.EscapeDigits | packages/sdfb-beam/src/sdfb_beam/io/digest.py:28 | escapes use lower-case digits |
| JsonDumps.StringRoundTrip | packages/sdfb-beam/src/sdfb_beam/io/digest.py:32 | a printed string, with quotes, backslashes, control and non-ASCII characters escaped, reads back as itself with its split surrogate pairs joined |
| JsonWeight.DumpsRoundTrip | packages/sdfb-beam/src/sdfb_beam/io/digest.py:32 | printing and reading always gives a value, and gives the same value exactly when no string or key holds a surrogate pair as two code points |
| JsonWeight.SplitPairIsJoined | packages/sdfb-beam/src/sdfb_beam/io/digest.py:32 | two lone surrogates come back as one code point |
| JsonRepair.RepairIsDropCommas | packages/sdfb-beam/src/sdfb_beam/handlers/mlx_client.py:261 | the regular expression's non-overlapping substitution drops exactly the commas that only white space separates from a closing bracket |
| JsonRepair.DropsExactlyRuns | packages/sdfb-beam/src/sdfb_beam/handlers/mlx_client.py:261 | a text changes under the repair exactly when it holds a comma, white space, closing bracket run |
| JsonRepair.RepairRender | packages/sdfb-beam/src/sdfb_beam/handlers/mlx_client.py:259-261 | the repaired text of a tree is the text of the same tree with every surplus comma gone and every literal stripped of such runs |
| JsonRepair.LenientRender | packages/sdfb-beam/src/sdfb_beam/handlers/mlx_client.py:252-265 | with any surplus commas a text is always read; it means what it spells when it needed no repair or no literal holds a run, and, for texts without repeated keys, only then |
| JsonRepair.RepairCanSpoilAString | packages/sdfb-beam/src/sdfb_beam/handlers/mlx_client.py:259-265 | a valid text that the lenient reader misreads |
| JsonScan.FindBalancedClose | packages/sdfb-beam/src/sdfb_beam/handlers/mlx_client.py:222-250 | the index returned is the least one whose brace is outside every string and brings the depth back to 0; -1 exactly when there is none |
| JsonScan.FeedClosesAt | packages/sdfb-beam/src/sdfb_beam/handlers/mlx_client.py:229-250 | the matcher read character by character from the left meets that same brace |
| JsonScan.FeedAppend | packages/sdfb-beam/src/sdfb_beam/handlers/mlx_client.py:232-250 | a found brace does not depend on what follows it; an open scan goes on where it stopped |
| JsonScan.ExtractFirstJsonObject | packages/sdfb-beam/src/sdfb_beam/handlers/mlx_client.py:194-220 | the search loop computes the search function |
| JsonScan.ExtractFinds | packages/sdfb-beam/src/sdfb_beam/handlers/mlx_client.py:205-220 | the search stops at the first brace that is unbalanced or opens an object, with nothing or with that object |
| JsonScan.ExtractRender | packages/sdfb-beam/src/sdfb_beam/handlers/mlx_client.py:194-265 | an object text with any blanks and surplus commas, behind brace-free prose and before anything, is cut out whole; it comes back as the object it spells when it needs no repair or none spoils a string, and, for texts without repeated keys, only then |
| JsonScan.ExtractRoundTrip | packages/sdfb-beam/src/sdfb_beam/handlers/mlx_client.py:194-265 | prose, then a printed object, then anything gives the object back, exactly when no string of it holds a split surrogate pair |
| JsonScan.ProperPrefixOpen | packages/sdfb-beam/src/sdfb_beam/handlers/mlx_client.py:222-250 | no proper prefix of an object text is balanced: object texts are a prefix-free code |
| JsonScan.TruncationSafety | packages/sdfb-beam/src/sdfb_beam/handlers/mlx_client.py:211-214 | a reply cut off anywhere inside its object gives nothing, never a nested fragment |
| JsonScan.LaterBraceCanDoBetter | packages/sdfb-beam/src/sdfb_beam/handlers/mlx_client.py:213 | a text whose first brace is unbalanced while a later one opens an object |
| JsonScan.ExtractVersusDocumentation | packages/sdfb-beam/src/sdfb_beam/handlers/mlx_client.py:196-220 | the code returns the documented first object exactly when no unbalanced brace precedes it or there is none |
| KeyOrder.SortKeysDecides | packages/sdfb-beam/src/sdfb_beam/io/digest.py:28 | sorting the keys at every depth identifies exactly the values that are the same up to the order of keys: dictionaries with equal key sets and related values, lists item by item |
| KeyOrder.TextLeMeans | packages/sdfb-beam/src/sdfb_beam/io/digest.py:26-29 | keys and encodings are ordered by their first differing code point, upwards, a prefix first |
| Digest.FeedHash | packages/sdfb-beam/src/sdfb_beam/io/digest.py:26-33 | what the loop feeds to the hash is the concatenation of the sorted rows' encodings |
| Digest.ConcatParts | packages/sdfb-beam/src/sdfb_beam/io/digest.py:31-32 | encodings are fed one after the other |
| Digest.ConcatDecodes | packages/sdfb-beam/src/sdfb_beam/io/digest.py:31-32 | object texts written one after the other without separators can be told apart again |
| Digest.PreimageDecides | packages/sdfb-beam/src/sdfb_beam/io/digest.py:19-33 | two samples are hashed from one text exactly when they have the same encodings, each as often |
| Digest.PreimagePermutation | packages/sdfb-beam/src/sdfb_beam/io/digest.py:26-29 | the order of the rows does not matter |
| Digest.EncodeDecides | packages/sdfb-beam/src/sdfb_beam/io/digest.py:32 | rows that are the same dictionary up to the order of keys have one encoding, and without split surrogate pairs only such rows do |
| Digest.SameSampleSameText | packages/sdfb-beam/src/sdfb_beam/io/digest.py:19-33 | samples with the same dictionaries, up to the order of keys and each as often, are hashed from one text |
| Digest.PreimageIdentifiesSample | packages/sdfb-beam/src/sdfb_beam/io/digest.py:19-33 | without split surrogate pairs, only such samples are: every row counts as often in one as in the other, up to the order of keys |
| Collections.DedupeStable | packages/sdfb-core/src/sdfb_core/engines/b2_library/fidelity.py:219-228 | the loop over `seen` and `out` keeps every first occurrence |
| Collections.DedupeFacts | packages/sdfb-core/src/sdfb_core/engines/b2_library/freetext.py:209-216 | no repeats, and exactly the items given |
| Collections.DedupeOrder | packages/sdfb-core/src/sdfb_core/engines/b2_library/fidelity.py:219-228 | the items kept are in the order of their first occurrences |
| Collections.DedupePlaces | packages/sdfb-core/src/sdfb_core/engines/b2_library/fidelity.py:219-228 | what is kept stands at the first occurrences, at all of them, in order |
| Fidelity.ProfileFacts | packages/sdfb-core/src/sdfb_core/engines/b2_library/fidelity.py:139-216 | bounds that are attained and enclose every observation, categories that are exactly the observed ones with positive frequencies summing to 1, constants that are the only observation, pools without repeats |
| ProfileLaws.NonNullPlaces | packages/sdfb-core/src/sdfb_core/engines/b2_library/fidelity.py:141-142 | the observed values are all the values that are not null, in order |
| ProfileLaws.KindOf | packages/sdfb-core/src/sdfb_core/engines/b2_library/fidelity.py:96-127 | which kind each column and its observations get, with the number of different values, the types and the text thresholds written out |
| ProfileLaws.GridOf | packages/sdfb-core/src/sdfb_core/engines/b2_library/fidelity.py:171-190 | integer columns are integers, decimal ones have their declared places or two, floats have no grid; a constant is the first observation |
| ProfileLaws.NullShare | packages/sdfb-core/src/sdfb_core/engines/b2_library/fidelity.py:141-145 | the null fraction is the share of rows in which the column is missing or null |
| ProfileLaws.WeightsOf | packages/sdfb-core/src/sdfb_core/engines/b2_library/fidelity.py:203-216 | each category's weight is its number of observations over all of them |
| ProfileLaws.PoolOf | packages/sdfb-core/src/sdfb_core/engines/b2_library/fidelity.py:192-201 | a text pool holds exactly the observed values as text |
| Rounding.ToGridNear | packages/sdfb-core/src/sdfb_core/engines/b2_library/fidelity.py:296-304 | rounding half up to a decimal grid moves a number by at most half a step |
| Fidelity.PinMonotone | packages/sdfb-core/src/sdfb_core/engines/b2_library/fidelity.py:287-304 | integer and decimal rounding keep the order |
| Rounding.TiesAway | packages/sdfb-core/src/sdfb_core/engines/b2_library/fidelity.py:303-304 | a decimal tie is rounded away from zero |
| Rounding.TiesToEven | packages/sdfb-core/src/sdfb_core/engines/b2_library/fidelity.py:287-288 | an integer tie is rounded to the even neighbour |
| ProfileLaws.GridMeans | packages/sdfb-core/src/sdfb_core/engines/b2_library/fidelity.py:287-304 | a number is on a column's grid exactly when it is an integer, or a whole multiple of the declared place |
| ProfileLaws.EnforcedNumber | packages/sdfb-core/src/sdfb_core/engines/b2_library/fidelity.py:277-293 | a number is moved to the nearest point of the observed range and then to the grid |
| ProfileLaws.StandIn | packages/sdfb-core/src/sdfb_core/engines/b2_library/fidelity.py:326-337 | what stands in for a value that cannot be used: the first observed category or text, or the observed minimum |
| ProfileLaws.JsonCell | packages/sdfb-core/src/sdfb_core/engines/b2_library/fidelity.py:307-323 | JSON texts are decoded, and an unreadable one is replaced by the first observed text, decoded, or null |
| Fidelity.EnforcedRange | packages/sdfb-core/src/sdfb_core/engines/b2_library/fidelity.py:257-304 | any value put into a numeric column comes out within half a step of the observed range, inside it when the observed bounds are on the grid, and on the grid when it was a number |
| Fidelity.ObservedKept | packages/sdfb-core/src/sdfb_core/engines/b2_library/fidelity.py:246-274 | observed values are left alone, numbers up to rounding |
| Fidelity.EnforceTwice | packages/sdfb-core/src/sdfb_core/engines/b2_library/fidelity.py:246-304 | enforcing twice is enforcing once, exactly when the value does not fall back to an observed minimum off the decimal grid |
| Fidelity.EnforceTwiceCanMove | packages/sdfb-core/src/sdfb_core/engines/b2_library/fidelity.py:326-332 | a column and a missing value for which it is not |
| Fidelity.RequiredNeverNull | packages/sdfb-core/src/sdfb_core/engines/b2_library/fidelity.py:257-260 | a REQUIRED column with an observation never gets a null |
| FreeText.FreeTextHook.PoolFor | packages/sdfb-core/src/sdfb_core/engines/b2_library/freetext.py:117-151 | a cached key changes nothing and makes no call; a new one makes one call and stores the pool it returns |
| FreeText.ExtractValues | packages/sdfb-core/src/sdfb_core/engines/b2_library/freetext.py:154-169 | every non-empty text of the responses, in order |
| FreeText.PoolFacts | packages/sdfb-core/src/sdfb_core/engines/b2_library/freetext.py:125-151 | a pool is bounded, never empty when something was observed, without repeats, whatever the client does |
| FreeText.NonEmptyPlaces | packages/sdfb-core/src/sdfb_core/engines/b2_library/freetext.py:169 | the non-empty texts, all of them, in order |
| FreeText.AllTextsParts | packages/sdfb-core/src/sdfb_core/engines/b2_library/freetext.py:160-168 | the texts of the responses one after the other |
| FreeText.PoolPlaces | packages/sdfb-core/src/sdfb_core/engines/b2_library/freetext.py:147-151 | when the client answers, the pool is its non-empty values and then the exemplars, each once, in order, as many as the bound allows |
| FreeText.PoolWithoutReply | packages/sdfb-core/src/sdfb_core/engines/b2_library/freetext.py:144-145 | when it fails, the pool is the first exemplars |
| FreeText.RunFacts | packages/sdfb-core/src/sdfb_core/engines/b2_library/freetext.py:117-123 | over any run there is one call per distinct key, and every request gets the pool of its key |
| FreeText.PoolStable | packages/sdfb-core/src/sdfb_core/engines/b2_library/freetext.py:69-73 | requests with one key get one pool |
| FreeText.KeysMean | packages/sdfb-core/src/sdfb_core/engines/b2_library/freetext.py:118 | keys differ when column or seed do, or when the similarities are more than a ten-thousandth apart |
| FreeText.LlmCost | packages/sdfb-beam/src/sdfb_beam/dofns/generate.py:60-70 | a worker's calls: one per free-text column without a seed, one per column and batch with one |
| FreeText.BlendPools | packages/sdfb-core/src/sdfb_core/engines/b2_library/freetext.py:172-206 | the array-filling loop computes the blend |
| FreeText.BlendFacts | packages/sdfb-core/src/sdfb_core/engines/b2_library/freetext.py:177-206 | the blend is a distribution over the distinct values of both pools in every degenerate case, and the reference pool's mass is the clamped similarity, 1 or 0 |
| FreeText.BlendEven | packages/sdfb-core/src/sdfb_core/engines/b2_library/freetext.py:179-203 | within each pool the mass is spread evenly |
| B2Engine.B2LibraryEngine.Setup | packages/sdfb-core/src/sdfb_core/engines/b2_library/engine.py:73-91 | a second call changes nothing; the first one profiles every column or leaves the engine unfitted |
| B2Engine.B2LibraryEngine.Teardown | packages/sdfb-core/src/sdfb_core/engines/b2_library/engine.py:116-123 | nothing is left |
| B2Engine.B2LibraryEngine.AssembleRow | packages/sdfb-core/src/sdfb_core/engines/b2_library/engine.py:161-169 | row i has exactly the schema's columns, each with the enforced i-th cell of its column, or null where the column was not sampled |
| B2Engine.B2LibraryEngine.GenerateBatch | packages/sdfb-core/src/sdfb_core/engines/b2_library/engine.py:127-159 | refused before setup; otherwise the accepted ones of the n assembled rows, the i-th of which holds the enforced i-th cells, those of the text hook first; on a fitted engine every column of every row returned is in its observed support |
| B2Engine.AcceptedPlaces | packages/sdfb-core/src/sdfb_core/engines/b2_library/engine.py:154-159 | the rows kept are all the accepted ones, each as often as assembled, in order |
| B2Engine.RowFidelity | packages/sdfb-core/src/sdfb_core/engines/b2_library/engine.py:161-169 | whatever the backend sampled and the pool held, every cell of an assembled row is in its column's observed support |
| VectorIndex.PyExactIPIndex.constructor | packages/sdfb-core/src/sdfb_core/engines/b1_rag/index.py:61-63 | the stored rows are the normalised ones |
| VectorIndex.PyExactIPIndex.Search | packages/sdfb-core/src/sdfb_core/engines/b1_rag/index.py:65-77 | scoring, sorting and cutting gives the top k, or an error after release |
| VectorIndex.PyExactIPIndex.Release | packages/sdfb-core/src/sdfb_core/engines/b1_rag/index.py:79-80 | the rows are gone and later searches are refused |
| VectorIndex.DotIsSum | packages/sdfb-core/src/sdfb_core/engines/b1_rag/index.py:72 | a score is the sum of the products of the coordinates, up to the length of the shorter vector |
| VectorIndex.NormalizeDirection | packages/sdfb-core/src/sdfb_core/engines/b1_rag/index.py:51-55 | normalising divides every coordinate by the root of the sum of squares |
| VectorIndex.TopKIsTopK | packages/sdfb-core/src/sdfb_core/engines/b1_rag/index.py:65-77 | min(k, N) distinct rows, best first with ties by index, and no better row left out |
| VectorIndex.TopKUnique | packages/sdfb-core/src/sdfb_core/engines/b1_rag/index.py:41-43 | only one list of each length has these properties |
| VectorIndex.TopKPrefix | packages/sdfb-core/src/sdfb_core/engines/b1_rag/index.py:75-77 | a larger k only adds at the end |
| VectorIndex.NormalizeLength | packages/sdfb-core/src/sdfb_core/engines/b1_rag/index.py:51-55 | length 1, except for the zero vector, which stays |
| VectorIndex.UnitScore | packages/sdfb-core/src/sdfb_core/engines/b1_rag/index.py:71-74 | no row scores above 1 against a unit query, and only rows equal to it score 1 |
| VectorIndex.NearestIsSelf | packages/sdfb-core/src/sdfb_core/engines/b1_rag/index.py:65-77 | the search for a stored non-zero row starts with the first row that is the same after normalisation |
| SeedMix.MixSeed | packages/sdfb-core/src/sdfb_core/engines/b1_rag/engine.py:329-342 | the accumulator loop computes the mix of the key, below 2^64 |
| SeedMix.MixSteps | packages/sdfb-core/src/sdfb_core/engines/b1_rag/engine.py:339-341 | characters are mixed in from left to right, one step each |
| SeedMix.StepUndone | packages/sdfb-core/src/sdfb_core/engines/b1_rag/engine.py:340-341 | a step is an exclusive-or and then a multiplication: the prime's inverse gives the exclusive-or back |
| SeedMix.XorBits | packages/sdfb-core/src/sdfb_core/engines/b1_rag/engine.py:340 | a bit of the exclusive-or is set exactly when it is set in one of the two |
| SeedMix.NoSeedIsZero | packages/sdfb-core/src/sdfb_core/engines/b1_rag/engine.py:337 | no seed is the seed 0 |
| SeedMix.DecimalReads | packages/sdfb-core/src/sdfb_core/engines/b1_rag/engine.py:339 | a seed is printed as decimal digits without a leading zero that read back as it |
| SeedMix.MultiplyInjective | packages/sdfb-core/src/sdfb_core/engines/b1_rag/engine.py:340-341 | multiplying by the prime modulo 2^64 loses nothing |
| SeedMix.StepInjective | packages/sdfb-core/src/sdfb_core/engines/b1_rag/engine.py:339-341 | one step is injective in the state |
| SeedMix.StepSeparates | packages/sdfb-core/src/sdfb_core/engines/b1_rag/engine.py:339-341 | and in the character |
| SeedMix.OneCharacterSeparates | packages/sdfb-core/src/sdfb_core/engines/b1_rag/engine.py:329-342 | keys that differ in exactly one character never share a sub-seed |
| SeedMix.NeighbouringSeedsSeparate | packages/sdfb-core/src/sdfb_core/engines/b1_rag/engine.py:330-339 | batch seeds that share their sign and all digits but the last have different sub-seeds, for every salt |
| B1Sampling.NumericPython | packages/sdfb-core/src/sdfb_core/engines/b1_rag/_fidelity.py:150-169 | every draw is turned into its clipped and coerced mix |
| B1Sampling.SampledMeans | packages/sdfb-core/src/sdfb_core/engines/b1_rag/_fidelity.py:158-167 | which of the three cases a draw falls into, and that the mix is moved to the nearest point of the range |
| B1Sampling.MixedRates | packages/sdfb-core/src/sdfb_core/engines/b1_rag/_fidelity.py:161-164 | the mix moves with anchor, jitter and uniform draw at the rates s, s (1 - s) and 1 - s, and is the anchor when nothing pulls it away |
| B1Sampling.SampledInRange | packages/sdfb-core/src/sdfb_core/engines/b1_rag/_fidelity.py:150-212 | a sampled number is in the observed range, up to half a step when a bound is off the grid |
| B1Sampling.SampledNearObserved | packages/sdfb-core/src/sdfb_core/engines/b1_rag/_fidelity.py:160-165 | it stays within 1.5 (1 - similarity) spreads of the observed value it is anchored at, and is that value at similarity 1 |
| B1Sampling.WeightsDistribution | packages/sdfb-core/src/sdfb_core/engines/b1_rag/_fidelity.py:171-184 | the category weights are non-negative and sum to 1 for every similarity in [0, 1] |
| B1Sampling.WeightsOrder | packages/sdfb-core/src/sdfb_core/engines/b1_rag/_fidelity.py:176-183 | more frequent categories never weigh less |
| B1Sampling.WeightsFlatten | packages/sdfb-core/src/sdfb_core/engines/b1_rag/_fidelity.py:176-183 | as similarity falls every weight only moves towards uniform |
| B1Sampling.WeightsLine | packages/sdfb-core/src/sdfb_core/engines/b1_rag/_fidelity.py:178-183 | a weight goes in a straight line from uniform, at similarity 0, to the observed frequency, at 1 |
| Stages.BuildRequests | packages/sdfb-beam/src/sdfb_beam/pipeline.py:98-106 | the loop builds the list of requests |
| Stages.RequestFacts | packages/sdfb-beam/src/sdfb_beam/pipeline.py:98-106 | the requests ask for exactly `num_rows` rows, 1 to `batch_size` each, in the least number of requests, numbered in order |
| Stages.SeedsDiffer | packages/sdfb-beam/src/sdfb_beam/dofns/generate.py:63 | different batches of a seeded run get different seeds, the first one the base seed |
| Stages.GenerateRecordsDoFn.Process | packages/sdfb-beam/src/sdfb_beam/dofns/generate.py:60-87 | the engine gets base seed plus batch id; every record yielded before a failure goes on, and a failure adds one dead letter for the request |
| Stages.ValidateRecordDoFn.Process | packages/sdfb-beam/src/sdfb_beam/dofns/validate_record.py:35-51 | a record goes on or becomes one `schema.types` dead letter |
| Stages.ExtractFailedIndices | packages/sdfb-beam/src/sdfb_beam/dofns/pandera_batch.py:68-93 | the readable indices, or the whole batch when there is none to read |
| Stages.WholeBatch | packages/sdfb-beam/src/sdfb_beam/dofns/pandera_batch.py:76-93 | a batch whose failures name no row (unreadable cases, no index column, no index in it) is rejected whole; one that passes or has no failure case lands whole |
| Stages.FlaggedRows | packages/sdfb-beam/src/sdfb_beam/dofns/pandera_batch.py:49-66 | when the failures name a row, exactly the rows they name are rejected and the others land, in order |
| Stages.PickedPlaces | packages/sdfb-beam/src/sdfb_beam/dofns/pandera_batch.py:51-66 | the rows picked stand at the places inside, or outside, the set, in order |
| Stages.PanderaValidateBatchDoFn.Process | packages/sdfb-beam/src/sdfb_beam/dofns/pandera_batch.py:38-66 | which rows of a batch land and which become dead letters, in order, with the counters |
| Stages.BatchSplit | packages/sdfb-beam/src/sdfb_beam/dofns/pandera_batch.py:38-66 | every row of a batch lands or is rejected, exactly once |
| Stages.SameKeyMeans | packages/sdfb-beam/src/sdfb_beam/codegen/derive_pandera.py:69 | two rows have one key exactly when each key column is missing in both or has one value in both |
| Stages.LandedKeysDistinct | packages/sdfb-beam/src/sdfb_beam/dofns/pandera_batch.py:49-66 | when every row of a duplicated key is flagged, rows that land from one batch have distinct keys |
| Pipeline.TakeStep | packages/sdfb-beam/src/sdfb_beam/pipeline.py:110-153 | a step of the step system is one call of the DoFn concerned, and the DoFns' counters move by what the step yields, fails, rejects and lands |
| Pipeline.RunInvariants | packages/sdfb-beam/src/sdfb_beam/pipeline.py:98-153 | in every reachable state no record is lost or duplicated, dead letters are accounted for by rule, no more rows were yielded than asked for, and only accepted records go on |
| Pipeline.RunConserves | packages/sdfb-beam/src/sdfb_beam/pipeline.py:98-153 | a finished run splits the yielded records exactly between landing and dead letters, and puts out yielded records plus failed requests, at most the rows asked for plus one per request |
| Pipeline.EveryRunCanFinish | packages/sdfb-beam/src/sdfb_beam/pipeline.py:98-153 | no run gets stuck: every reachable state extends to a finished one |
| PrimaryKeys.ExactlyOneCarrier | packages/sdfb-beam/src/sdfb_beam/dofns/pandera_batch.py:49-66 | when exactly the duplicates are dropped, a key lands from a batch once if one row carries it and not at all otherwise |
| PrimaryKeys.KeyLandings | packages/sdfb-beam/src/sdfb_beam/pipeline.py:130-142 | over any run a key is in the landing table exactly once for every checked batch it lands from |
| PrimaryKeys.KeyMultiplicity | packages/sdfb-beam/src/sdfb_beam/pipeline.py:130-142 | over any run a key value lands at most once per checked batch |
| PrimaryKeys.LandsAtMostOnce | packages/sdfb-beam/src/sdfb_beam/pipeline.py:130-142 | a primary key lands at most once in a run exactly when no two checked batches carry it, each in a single row |
| PrimaryKeys.SameKeyLandsTwice | packages/sdfb-beam/src/sdfb_beam/pipeline.py:130-142 | a finished run without dead letters that lands one key twice |
| RunSummary.TableCounts | packages/sdfb-beam/src/sdfb_beam/pipeline.py:169-177 | the rule table, in any order, sums to the number of dead letters, and its blockers are the records the model rejected |
| RunSummary.GateOverRuns | packages/sdfb-core/src/sdfb_core/validation/summary.py:61-114 | in every run the gate fires exactly when the rejected records exceed the threshold's share of all rows |
| RunSummary.DuplicatesNeverBlock | config/thresholds.yml:34-37 | no run emits the rule id for duplicated keys, and a run whose records the model all accepts goes through the gate |
| RunSummary.DuplicatesPassTheGate | config/thresholds.yml:34-37 | a finished run of two rows with one key, both flagged and dead-lettered, that a gate tolerating no failure lets through |
| RunSummary.GateMonotone | packages/sdfb-core/src/sdfb_core/validation/summary.py:76-84 | rows that are no blockers never fail a passing run; blockers never save a failing one |
| SchemaRecord.DecimalSound | packages/sdfb-tests/src/sdfb_tests/strategies.py:23-33 | in a sound column every generated decimal has few enough digits and places |
| SchemaRecord.DecimalUnsound | packages/sdfb-tests/src/sdfb_tests/strategies.py:50-51 | in any other column a generated decimal that is refused |
| SchemaRecord.GeneratedIsAccepted | packages/sdfb-tests/src/sdfb_tests/strategies.py:67-87 | in a sound schema, nested and repeated structs included, every record the strategy can produce is accepted |
| SchemaRecord.GeneratedIsRefused | packages/sdfb-core/src/sdfb_core/codegen/derive_pydantic.py:49-119 | in any other schema some record the strategy can produce is refused |
| SchemaRecord.SoundExactly | packages/sdfb-core/src/sdfb_core/codegen/derive_pydantic.py:27-119 | generator implies validator exactly for the sound schemas |
| RecordShape.AcceptedMeans | packages/sdfb-core/src/sdfb_core/codegen/derive_pydantic.py:49-119 | the model accepts exactly the records that, at every place inside them and at every depth, have no cell outside the columns, every REQUIRED column, lists in REPEATED ones, and values of the declared type and limits, and whose keys are not null |
| DecimalLimits.DecimalMeans | packages/sdfb-core/src/sdfb_core/codegen/derive_pydantic.py:87-95 | a decimal is accepted exactly when the number is a whole number of units of its last declared place, fits the declared digits, and is below the declared whole digits |
| DecimalLimits.UpperMeans | packages/sdfb-tests/src/sdfb_tests/strategies.py:23-26 | the strategy's bound is 10^i - 10^-s while its digits fit the decimal context |

## Left out

- IEEE floating point, NaN and the infinities: numbers are exact reals, and the square root is any function with the square root's law.
- JsonSyntax.LoadsRender: a number stays the token it is written as, because what `int()` and `float()` make of it depends on the token alone; that `int()` refuses tokens of more than 4300 digits with an error the lenient reader does not catch, and Python's recursion limit, are not modelled.
- Digest.FeedHash: SHA-256 is not modelled, the claims are about its input; rows are JSON values, as they are after `default=str`, whose effect on other objects is not modelled.
- Fidelity.EnforcedRange: `Decimal.quantize` fails on results of more than 28 digits; the model's grid has no such limit.
- Fidelity.ProfileFacts: distinct values are compared as values, without Python's equality across types (`True == 1`, `1 == Decimal(1)`); RECORD and REPEATED values, which degrade to strings there, are not values of the model.
- Fidelity.RequiredNeverNull: leaves JSON columns out, whose unreadable fallback is null in the code as well.
- Fidelity.ObservedKept: leaves JSON columns out, whose observed strings come back decoded.
- Fidelity.EnforceTwice: leaves JSON columns out, because it would say something about two calls of an unknown decoder.
- FreeText.FreeTextHook.PoolFor: the prompt, the JSON schema and the temperature passed to the client are not modelled; a reply is an arbitrary list of responses or a failure.
- FreeText.BlendPools: the draws and the null mask that `sample` makes with the blend are not modelled.
- B2Engine.B2LibraryEngine.GenerateBatch: the backend's columns, the hook's draws and the record model's verdicts are inputs; the Empirical and SDGX backends, with their logarithmic temperature reweighting, and pickling are not modelled.
- VectorIndex.NearestIsSelf: the stored vectors have one length, as one embedder produces them; the FAISS index is not modelled.
- SeedMix.MixSeed: salts are Dafny strings, which hold no lone surrogates; the random generators the sub-seeds feed are not modelled.
- B1Sampling.NumericPython: random draws are inputs limited to their documented ranges; NaN values are excluded; the NumPy path, null masks and B.1's free-text pools and lifecycle are not modelled.
- Stages.BuildRequests: needs a batch size of at least 1, without which the loop does not end.
- Stages.ValidateRecordDoFn.Process: exceptions other than a validation error are not modelled; dead letters carry no error detail.
- Pipeline.RunInvariants: Beam's retries and at-least-once delivery of a step are not modelled; a step takes effect once.
- Stages.LandedKeysDistinct: that Pandera flags every row of a duplicated key by its index is an assumption about that library; so is, in PrimaryKeys.ExactlyOneCarrier and LandsAtMostOnce, that it flags no other row.
- RunSummary.GateOverRuns: the summary's descriptive fields and its BigQuery row are not modelled.
- SchemaRecord.SoundExactly: negative lengths, precisions and scales, duplicate attribute rules of `create_model`, and coercions of values the strategies never produce are not modelled; the arbitrary text and date alphabets are reduced to lengths and ranges.
- Model loading (vLLM, MLX), subprocess control, HTTP, GCS, the BigQuery sinks and sources, the CLI, the Airflow DAG and the engine registry.
