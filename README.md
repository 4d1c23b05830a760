# strdb in Dafny

strdb stores a word list, such as the `english_words_all` and `german_words_all` lists that `Processor.main` names, as many small files in a ZIP archive, and answers queries on it. It has two halves.

- **The partition builder** is `Processor.transform`. It reads a word list with one quoted word per line. It collects the words shorter than three characters into a `.shortnames` file. Every other word goes to a shard file named by the word's first three characters. A new shard file is opened (and so truncated) whenever a word does not start with the current prefix.
- **The query side** is the `StrDb` class. It reads an archive holding those files and offers these operations:
  - enumeration of every line, entry after entry, with or without an early stop;
  - counting;
  - filtering with an optional limit;
  - case-sensitive or case-insensitive resolution of a word and containment checks.

The model works on values rather than on the file system and the ZIP archive:

- The build's output directory is a map from file name to file text.
- The archive is a sequence of `Entry(name, lines)` values, in the archive's own order. Each entry's `lines` are the lines a reader of that entry returns.

The Dafny files:

- `common.dfy` (module `Common`): option and result types, `Min`/`Max`, and order-preserving `Filter` with its multiplicity lemma.
- `java_text.dfy` (module `JavaText`): the `java.lang.String` and `java.io` behaviour the two halves rely on. It covers `indexOf`, `startsWith`, ASCII `toLowerCase`, what a writer holds after appending lines, `BufferedReader.readLine` as `ReadLines`, and `compareTo`.
- `processor.dfy` (module `Processor`):
  - the imperative `Transform` method, whose loop mirrors the source;
  - the fold `Run` that specifies it, one `Step` per source line;
  - the properties of the build.
- `processor_examples.dfy` (module `ProcessorExamples`): worked examples, including the truncation an unsorted word list causes.
- `strdb.dfy` (module `StrDb`):
  - the class `StrDb`, with its immutable configuration and the query methods;
  - the specification functions `AllLines`, `Feed`, `Selected`, `FirstMatch` and `ResolveSpec`;
  - the lemmas about those functions.
- `build_then_query.dfy` (module `BuildThenQuery`): pack what the builder writes into an archive, then query it.

A `LineProcessor` is modelled as a function `(state, line) -> (goOn, state')` plus a `getResult` function. The fields that the source's anonymous processors update (`count`, `found`, and the captured list builder) are this threaded state.

## Model

| member | source | states |
|---|---|---|
| JavaText.IndexOf | src/main/java/eu/metatools/dbs/Processor.java:28-30 | `indexOf(c, from)` is -1 exactly when `c` does not occur from `from` on. Otherwise it is the first position at or after `from` that holds `c`. |
| JavaText.ReadLinesTerminate | src/main/java/eu/metatools/dbs/Processor.java:44-52 | Reading a writer's text line by line gives back the lines that were written, each followed by `\r\n` or `\n`, provided the lines contain no line break. |
| Processor.ParseWord | src/main/java/eu/metatools/dbs/Processor.java:28-32 | A line yields no word exactly when it has fewer than two `"`. Otherwise the word is the text strictly between the first quote and the next one. |
| Processor.ParseQuoted | src/main/java/eu/metatools/dbs/Processor.java:28-32 | A line `head "w" tail`, with no quote in `head` or `w`, yields `w` whatever `tail` holds. |
| Processor.ParsedWords | src/main/java/eu/metatools/dbs/Processor.java:27-32 | The words of the lines that carry one: no more words than lines, and no line breaks in them when the lines have none. |
| Processor.Transform | src/main/java/eu/metatools/dbs/Processor.java:18-53 | The loop's prefix cursor, writer and short-word list are a step-by-step run of `Run`. The resulting directory is every shard's words, each followed by `\r\n`, plus `.shortnames` written with the platform separator after the loop. A reopened shard starts from empty text. |
| Processor.PlaceOpens | src/main/java/eu/metatools/dbs/Processor.java:36-41 | With no prefix yet, or a current prefix that is not the word's key, the word's first three characters (case kept) become the prefix. The shard of that name is restarted and holds just this word. |
| Processor.PlaceAppends | src/main/java/eu/metatools/dbs/Processor.java:44-46 | A word that starts with the current prefix is appended to the end of the open shard, and nothing else changes. |
| Processor.PlaceFiles | src/main/java/eu/metatools/dbs/Processor.java:36-46 | For a word that is not short, the directory after the step holds the shard files of the new build. The shard of the prefix, truncated first when it is reopened, gains the word and CR LF, and the prefix is that shard's name. |
| Processor.RunPlaced | src/main/java/eu/metatools/dbs/Processor.java:27-32 | Lines without a word are skipped: the build depends on the input only through its sequence of parsed words. |
| Processor.RunShortWords | src/main/java/eu/metatools/dbs/Processor.java:33-34 | `.shortnames` receives exactly the parsed words shorter than three characters, in arrival order. |
| Processor.RunShardsKeyed | src/main/java/eu/metatools/dbs/Processor.java:36-46 | Whatever the input order:<br>- the prefix is the key of the last word that is not short;<br>- every shard is non-empty, named by three characters, and holds only parsed words whose exact key is its name;<br>- every parsed word that is not short has a shard. |
| Processor.RunShardNames | src/main/java/eu/metatools/dbs/Processor.java:37 | Every shard name has exactly three characters. |
| Processor.ShardMember | src/main/java/eu/metatools/dbs/Processor.java:36-46 | A word found in a shard is a parsed word whose case-sensitive key is the shard's name. |
| Processor.RunContiguous | src/main/java/eu/metatools/dbs/Processor.java:36-46 | When words sharing a key arrive together, every shard holds exactly the parsed words with its key, in arrival order: no shard is truncated by a reopen. |
| Processor.SortedKeysContiguous | src/main/java/eu/metatools/dbs/Processor.java:36-41 | A word list sorted by `compareTo` after lower-casing, whose keys are already lower-case, has the words of each key together. |
| Processor.ShortWordPlacement | src/main/java/eu/metatools/dbs/Processor.java:33-34 | A short word is in `.shortnames` as often as in the parsed input, and in no shard. |
| Processor.LongWordElsewhere | src/main/java/eu/metatools/dbs/Processor.java:33-46 | A word of three or more characters is never in `.shortnames`, and never in a shard other than the one named by its key. |
| Processor.LongWordPlacement | src/main/java/eu/metatools/dbs/Processor.java:27-52 | On input whose keys arrive together, each parsed word of three or more characters is in its key's shard exactly as often as in the input. With the two lemmas above, no word is lost or duplicated. |
| ProcessorExamples.ExampleLines | src/main/java/eu/metatools/dbs/Processor.java:28-32 | `  "ant",` yields `ant`, `"boat": 1` yields `boat`, and `[` yields nothing. |
| ProcessorExamples.ExampleBuild | src/main/java/eu/metatools/dbs/Processor.java:18-53 | The words ant, ants, boa, boat, ox give the shards `ant` = [ant, ants] and `boa` = [boa, boat], and the short word ox. |
| ProcessorExamples.UnsortedInputTruncates | src/main/java/eu/metatools/dbs/Processor.java:36-41 | The words abcd, xyzw, abce reopen the shard `abc`, which ends up holding only abce although two parsed words carry its key. |
| StrDb.ToInt32 | src/main/java/eu/metatools/dbs/StrDb.java:112-116 | Java `int` wrap-around: the identity on the 32-bit range, and always congruent to its argument modulo 2^32. |
| StrDb.AllLinesOrder | src/main/java/eu/metatools/dbs/StrDb.java:57-69 | Enumeration is entry after entry, and line after line within an entry. Line j of entry k comes right after all lines of the earlier entries and the first j lines of entry k. |
| StrDb.AllLinesCount | src/main/java/eu/metatools/dbs/StrDb.java:110-125 | Enumeration yields as many lines as the entries hold together. |
| StrDb.GetEntry | src/main/java/eu/metatools/dbs/StrDb.java:247-251 | `getEntry(name)` is null exactly when no entry has that name. Otherwise it is an entry of that name. |
| StrDb.FeedStopped | src/main/java/eu/metatools/dbs/StrDb.java:93-95 | A processor that has said stop is fed nothing more. |
| StrDb.FeedAppend | src/main/java/eu/metatools/dbs/StrDb.java:82-98 | Feeding two runs of lines is feeding the first run, then the second from where the first left off. |
| StrDb.FeedStopsAt | src/main/java/eu/metatools/dbs/StrDb.java:93-95 | The first line on which `processLine` returns false ends the feed, and the result is the state that call produced, whatever lines follow. |
| StrDb.FeedCount | src/main/java/eu/metatools/dbs/StrDb.java:111-124 | The counting processor never stops. After n lines its count is n as a Java `int`. |
| StrDb.FeedCollecting | src/main/java/eu/metatools/dbs/StrDb.java:152-171 | The processor of `where` collects the matching lines in order, with `found` equal to their number. It stops exactly once `limit` is not -1 and at least max(limit, 1) lines matched. It then holds the first max(limit, 1) matches. |
| StrDb.FirstMatch | src/main/java/eu/metatools/dbs/StrDb.java:233-243 | The scan returns a line of the entry that matches (equal, or equal after lower-casing both) and no earlier line matches. It returns null exactly when no line matches. |
| StrDb.ConsultedName | src/main/java/eu/metatools/dbs/StrDb.java:221-247 | `resolve` consults exactly one entry: `basePath + ".shortnames"` for a word shorter than the prefix length, otherwise the lower-cased prefix without the base path. It consults none when a negative prefix length makes `substring` throw. |
| StrDb.ResolveReadsOnlyConsulted | src/main/java/eu/metatools/dbs/StrDb.java:221-247 | Two archives that agree on the consulted entry give the same resolution: nothing else is read. |
| StrDb.ResolveAbsentShard | src/main/java/eu/metatools/dbs/StrDb.java:247-251 | A word at least as long as the prefix, whose lower-cased prefix names no entry, resolves to null. |
| StrDb.ResolveFirstMatch | src/main/java/eu/metatools/dbs/StrDb.java:233-271 | When the consulted entry exists, resolution succeeds. A line it returns equals the word (matching case) or equals it after lower-casing (otherwise). It is the first such line of the entry, and null means the entry has no such line. |
| StrDb.ScanLines | src/main/java/eu/metatools/dbs/StrDb.java:233-243 | The `readLine` loop of `resolve` returns `FirstMatch` of the entry's lines. |
| StrDb.StrDb.constructor | src/main/java/eu/metatools/dbs/StrDb.java:44-49 | The database keeps its archive, base path and prefix length. |
| StrDb.StrDb.Words | src/main/java/eu/metatools/dbs/StrDb.java:57-70 | The consumer receives exactly `AllLines`: every line of every entry, entry after entry. |
| StrDb.StrDb.WordsUntil | src/main/java/eu/metatools/dbs/StrDb.java:80-102 | The nested loops with early return give `getResult` of the state that feeding `AllLines` produces. That feed stops at the first false. |
| StrDb.StrDb.GetCount | src/main/java/eu/metatools/dbs/StrDb.java:110-125 | The count is the number of lines over all entries, wrapped to a Java `int`. It is exact below 2^31. |
| StrDb.StrDb.Where | src/main/java/eu/metatools/dbs/StrDb.java:135-137 | Every line satisfying the predicate, in enumeration order. |
| StrDb.StrDb.WhereLimit | src/main/java/eu/metatools/dbs/StrDb.java:148-174 | With limit -1, all matches. Otherwise a prefix of all matches, of length min(limit, matches) for limit ≥ 1, and at most one match for limit 0 or below -1. |
| StrDb.StrDb.ResolveWithCase | src/main/java/eu/metatools/dbs/StrDb.java:218-275 | Returns `ResolveSpec`:<br>- the first matching line of the consulted entry, or null;<br>- null when no shard has that name;<br>- failure when the short-names entry is missing (`getInputStream(null)`) or the prefix length is negative. |
| StrDb.StrDb.Resolve | src/main/java/eu/metatools/dbs/StrDb.java:206-208 | Resolution ignoring case. |
| StrDb.StrDb.ContainsWithCase | src/main/java/eu/metatools/dbs/StrDb.java:195-197 | True exactly when resolution finds a line. It fails exactly when resolution fails, with the same error. |
| StrDb.StrDb.Contains | src/main/java/eu/metatools/dbs/StrDb.java:183-185 | Containment ignoring case, with the same correspondence to resolution. |
| BuildThenQuery.OutputNames | src/main/java/eu/metatools/dbs/Processor.java:41-52 | The build's directory holds `.shortnames` and otherwise only three-character shard names. |
| BuildThenQuery.ShortNamesEntry | src/main/java/eu/metatools/dbs/Processor.java:52 | For any word list without line breaks, in any order, the packed `.shortnames` entry exists and reads back as the short words, in arrival order. |
| BuildThenQuery.ShardEntry | src/main/java/eu/metatools/dbs/Processor.java:41-46 | For any word list without line breaks, in any order, packed under base path "", a shard's entry reads back as the shard's words, all of them parsed words. |
| BuildThenQuery.KeyOfWord | src/main/java/eu/metatools/dbs/Processor.java:36-41 | On a sorted list with lower-case keys, a parsed word's lower-cased prefix is its key, and the word is in that key's shard. |
| BuildThenQuery.ResolveShort | src/main/java/eu/metatools/dbs/StrDb.java:221-244 | Under any base path and for any word list without line breaks, in any order, a short word resolves (matching case) to itself exactly when the list holds it, and to null otherwise. |
| BuildThenQuery.ResolveRoundTrip | src/main/java/eu/metatools/dbs/StrDb.java:218-275 | Build, pack under base path "", then resolve with prefix length 3, matching case. On a sorted list whose words' first three characters are lower-case, a word resolves to itself exactly when the list holds it, and to null otherwise. |
| BuildThenQuery.ResolveAnyCaseRoundTrip | src/main/java/eu/metatools/dbs/StrDb.java:239-268 | Build a sorted list with lower-case keys, then resolve ignoring case. Resolution succeeds and returns the first parsed word, in arrival order, that equals the query after lower-casing, in its stored casing. It returns null exactly when the list holds no such word. |
| BuildThenQuery.AnyCaseLongAbsent | src/main/java/eu/metatools/dbs/StrDb.java:247-271 | For any word list without line breaks, in any order, packed under base path "", a word of three or more characters that equals no parsed word after lower-casing resolves (ignoring case) to null. |
| BuildThenQuery.BasePathHidesShards | src/main/java/eu/metatools/dbs/StrDb.java:223-247 | With a non-empty base path, every word of three or more characters resolves to null, because shard entries are looked up without the base path. |

## Left out

- ZIP access (`ZipFile`, `ZipEntry`, `getInputStream`), Guava byte and char sources, and UTF-8 decoding are not modelled. An archive is a sequence of entries that each hold their lines. `BufferedReader.readLine` is modelled (as `ReadLines`) only to connect the build's file texts to the entries in `BuildThenQuery`.
- `ZipFile.getEntry` also tries `name + "/"`; that fallback is not modelled. With repeated entry names the model takes the first one.
- `IOException`, try-with-resources closing, and exceptions thrown by a predicate, a consumer or a line processor are not modelled. Predicates and processors are total functions.
- JavaText.Lower: folds only the ASCII letters A-Z. `String.toLowerCase` is locale-dependent and covers all of Unicode.
- Strings are sequences of Dafny `char`, which are Unicode scalar values, while Java's `length()`, `substring`, `indexOf` and `compareTo` count UTF-16 code units. A character outside the Basic Multilingual Plane is one code point in the model but two units in Java. Word lengths (`IsShort`), keys (`Key`, and the `substring(0, prefixLength)` of `resolve`) and the order `LexLe` therefore count and cut such text differently: `a😀` is a short word in the model, but Java writes it to a shard.
- Processor.Transform: the last shard writer is never closed in the source, so its buffered text may never reach the file. The model treats every append as written.
- Processor.Transform: `mkdir`, files left over in an existing output directory, and the meaning of a shard name as a path (a `/` in a key, file-system case folding) are not modelled. The output is a fresh map from name to text.
- `main`, the `.json` file names, and reading the word list from disk are not modelled. The input is the list of its lines, and the `.shortnames` separator (the platform's `line.separator`) is a parameter.
- Tests.java is not part of this model. It calls a constructor that `StrDb` does not have.
- StrDb.StrDb.WhereLimit: `found` is an unbounded integer rather than a Java `int`. This cannot change the result. With limit -1 `found` is never compared, and otherwise the processor stops once `found` reaches `limit`, which is at most 2^31 - 1.
- BuildThenQuery.PackedUnder does not rule out extra entries that repeat a name. The round-trip lemmas do not need that, and the count of a packed build is not related to the number of parsed words.

### Quirks of the code that the model keeps

- Shard names keep the case of the word (`word.substring(0, ...)`, Processor.java:37), and the shard change test is a case-sensitive `startsWith` (Processor.java:36). `resolve` lower-cases the query's prefix before the lookup (`word.substring(0, prefixLength).toLowerCase()`, StrDb.java:247). So a word such as `Apple` is written to the shard `App`, which `resolve` never consults. The long-word round trips require lower-case keys (`LowerKeys`).
- A shard file is reopened with `Files.newWriter`, which truncates it, whenever a word does not start with the current prefix (Processor.java:36-41). Only a word list whose words of each key arrive together keeps every word. `UnsortedInputTruncates` shows a loss, and `RunContiguous` the condition that rules it out.
- `resolve` looks up short words under `basePath + ".shortnames"` (StrDb.java:223) but shards under the bare prefix (StrDb.java:247). `BasePathHidesShards` shows what follows.
- The Javadoc of `where` calls `limit` "The limit of results or -1 if unlimited" (StrDb.java:144). The processor adds a match and counts it before it tests `found >= limit` (StrDb.java:157-161). So a limit of 0, or below -1, returns the first match rather than none.
- The Javadoc of `resolve` promises "the word with the correct casing" (StrDb.java:211-212). The scan returns the first line that equals the query after lower-casing (StrDb.java:262-268). When the list holds several casings of one word, that is the first in arrival order, as `ResolveAnyCaseRoundTrip` states.
