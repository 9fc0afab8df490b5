# Mycelium: a verified model of the crawler's core

This project models, in Dafny, the parts of the mycelium web crawler that do
the real work, and proves what they promise:

- the Snowball runtime and the Porter stemmer of the indexer: the table search
  `find_among` with its two common-prefix counters and failure chain, the
  splicing cursor machine, every step of the stemmer, a law for each of its
  rules, and a stemmer reused from word to word;
- the crawl fleet: N transfer handles over one url classifier, driven by
  accepted urls, ticks and finished transfers, with politeness, robots.txt,
  conservation of urls and progress over every run;
- the connection that reads urls line by line from chunks;
- bencode parsing and printing;
- percent-encoding of urls, against a token reading of strings;
- url paths: `assign`, `get`, `merge` and `normalize`, against RFC 3986.

`dafny verify dfyconfig.toml` checks everything.

## Layout

| files | what they hold |
|---|---|
| `Bytes.dfy`, `Among.dfy`, `BackwardTables.dfy` | lexicographic order, suffix tables and the theory of the search |
| `Runtime.dfy` | class `Env`: the Snowball environment, its buffer and its operations |
| `PorterTables.dfy`, `PorterSpec.dfy`, `Porter.dfy` | the tables, the algorithm on words, the program against the algorithm |
| `PorterMeasure.dfy`, `PorterEndings.dfy`, `PorterStages.dfy`, `PorterMarks.dfy` | the algorithm by the number of vowel-consonant pairs, and what the end of a word decides |
| `PorterLawsFirst.dfy`, `PorterLaws.dfy`, `PorterLawsLate.dfy`, `PorterExamples.dfy` | one law for each rule of steps 1, 2 and 3 to 5, on the stem itself; words and their stems |
| `Classifier.dfy`, `ClassifierLaws.dfy` | class `Classifier` and what runs of it keep |
| `Hosts.dfy` | what normalising does to hosts, and which host a request reaches |
| `Fleet.dfy`, `FleetLaws.dfy`, `FleetRuns.dfy`, `FleetRobots.dfy`, `FleetHeld.dfy`, `FleetProgress.dfy`, `FleetQuiet.dfy`, `FleetPoliteness.dfy` | the fleet as a state machine: invariant, safety, robots.txt, conservation, progress, quiet, politeness |
| `Crawler.dfy` | classes `EasyHandle` and `GlobalInfo`, proved to take the steps of the state machine |
| `Lines.dfy` | class `Connection` and the lines of a stream |
| `Bencode.dfy`, `BencodeGrammar.dfy`, `BencodeStream.dfy` | values, printer and parser on strings; the grammar that the parser accepts; the same on streams |
| `Escapes.dfy`, `EscapeLoops.dfy` | tokens and laws; the byte loops |
| `Segments.dfy`, `Paths.dfy`, `PathMerge.dfy`, `PathNormal.dfy`, `PathPairs.dfy`, `PathLoops.dfy`, `Path.dfy` | segments and RFC 3986, path values, merge, normalize, class `Path` |

## How the program is read

- Symbols and bytes are Dafny characters; percent-encoding restricts them to
  values below 256. Memory is never exhausted.
- A suffix table has at least one entry, as the first comparison of the search
  assumes.
- The condition functions of a suffix table are predicates of the text and the
  cursor, because the search restores the cursor after each call. After a
  failed search with conditions the cursor is where the code leaves it, behind
  the shortest entry that fitted the text.
- Urls with equal hosts come out of the priority queue of the classifier in an
  order of its own; this order is a parameter of every peek, and the results
  hold for all of them. The host index gives the first entry with that host.
- A transfer is its outcome: result code and status, content type acceptable
  or not, robots.txt parsed or not. Which paths a parsed robots.txt allows is
  an arbitrary predicate. Of url normalisation the fleet model keeps what
  happens to the host: lower-casing, then decoding of escapes. Hosts as
  `Url::host` stores them hold no delimiter and no stray percent sign, so
  normalising the url string and parsing it again acts on the host alone
  (`Hosts.NormalHostStored`). Paths are compared by the robots.txt predicate
  only and are left as they are.
- Parsing and normalising urls, the effective url of a transfer among them,
  does not fail inside the fleet.
- The url parser behind a connection is an arbitrary function from lines.
- A path is merged with another object, or with itself when it is rooted.

## Where code and comments differ

The model follows the code.

- `src/common/Url.cc:721-741`: the comment says that a null byte cannot be
  unescaped, but the test compares the hex digits themselves with zero, so
  `%00` is decoded.
- `src/common/Doc.cc:83-156`: callers take the result of `load_url` to say
  whether the document is already stored, but it always returns false, so no
  url counts as preexisting.
- `src/common/Path.cc:16-17`: a rooted reference replaces the path without
  removal of its dot segments; `PathMerge.RootedExactly` says when this agrees
  with RFC 3986.
- `src/common/Url.cc:346-357`, `791-813`: one pass is not always enough and can
  change the meaning; the exact conditions are proved.
- `src/crawler/crawler.cc:806-807`: the classifier keeps hosts apart as they
  were written, the requests go to hosts in lower case with their escapes
  decoded; `FleetPoliteness.PoliteExactly` says when both agree.
- `src/crawler/crawler.cc:1020-1034`: the document's url is normalised once
  more (`src/common/Doc.cc:86-87`) before its host is compared with that of the
  url. Letters are lowered before escapes are decoded, so the two differ for a
  host such as `ex%41mple.com`, and its robots.txt is asked for again and again.
  `FleetProgress.DoneMeasure` and `FleetQuiet.QuietExactly` say for which hosts
  the fleet makes progress.
- `src/common/Path.cc:48-51`: `normalize` steps past the first segment without
  a test, and `Url::normalize_path` (`src/common/Url.hh:528`) calls it on any
  path, so `http://host/` reaches it with an empty list, where the language
  leaves the step undefined. `UrlPath.Path.Normalize` reports this case.
- `src/crawler/crawler.cc:1310-1325`: the line cut off by the end of a
  connection is handed on without the check for absolute http urls and without
  being counted.

## Model

| member | source | states |
|---|---|---|
| `AmongTables.LocalCheckSuffices` | 3rd_party/libstemmer_c/runtime/utilities.c:212-323 | a table whose neighbours are ordered and whose links point to the longest earlier prefix is well-formed as a whole: strictly sorted, every link the longest proper prefix entry or -1 |
| `AmongTables.LongestHit` | 3rd_party/libstemmer_c/runtime/utilities.c:212-268 | the reference: a linear scan gives the longest entry that matches and whose condition holds, and nothing only if no entry does |
| `AmongTables.LongestHitUnique` | 3rd_party/libstemmer_c/runtime/utilities.c:212-268 | there is only one longest hit, so the scan order does not matter |
| `AmongTables.SkipIsSound` | 3rd_party/libstemmer_c/runtime/utilities.c:228-239 | the characters skipped by the two common-prefix counters need no comparison: the middle entry shares them with the text |
| `AmongTables.WalkStart` | 3rd_party/libstemmer_c/runtime/utilities.c:242-256 | whichever way the search stops, every matching entry lies on the failure chain of the entry where the search stops |
| `AmongTables.WalkHit` | 3rd_party/libstemmer_c/runtime/utilities.c:255-264 | the first chain entry that fits and whose condition holds is the longest hit of all entries |
| `AmongTables.WalkEnd` | 3rd_party/libstemmer_c/runtime/utilities.c:265-266 | a chain walked to its end means that no entry is a hit, and the cursor stays at the shortest entry that fitted the text |
| `SnowballRuntime.Env.LocateForward` | 3rd_party/libstemmer_c/runtime/utilities.c:212-253 | the halving loop with its counters and its extra round stops at the entry from which the chain must be walked, with the length of its agreement |
| `SnowballRuntime.Env.LocateBackward` | 3rd_party/libstemmer_c/runtime/utilities.c:272-308 | the same for the backward search |
| `SnowballRuntime.Env.WalkChain` | 3rd_party/libstemmer_c/runtime/utilities.c:254-267 | the loop over the chain ends with the longest hit, its result and the cursor behind it |
| `SnowballRuntime.Env.FindAmong` | 3rd_party/libstemmer_c/runtime/utilities.c:212-268 | for every well-formed table, text and cursor: the result and the cursor of the linear scan for the longest entry with a true condition; on failure 0 |
| `SnowballRuntime.Env.FindAmongB` | 3rd_party/libstemmer_c/runtime/utilities.c:272-323 | the same for the entries that end at the cursor, within the backward limit |
| `BackwardTables.TableOkSuffices` | 3rd_party/libstemmer_c/runtime/utilities.c:272-323 | a table checked entry by entry from its ends is well-formed for the backward search |
| `BackwardTables.LongestHitIsLongestSuffix` | 3rd_party/libstemmer_c/runtime/utilities.c:272-323 | the longest hit of a reversed table is the longest suffix of the word among the entries |
| `PorterTables.Step1aTableOk` | 3rd_party/libstemmer_c/src_c/stem_ISO_8859_1_porter.c:36-46 | this table, entry by entry, is sorted with right links |
| `PorterTables.Step1bTidyTableOk` | 3rd_party/libstemmer_c/src_c/stem_ISO_8859_1_porter.c:48-77 | this table, entry by entry, is sorted with right links |
| `PorterTables.Step1bTableOk` | 3rd_party/libstemmer_c/src_c/stem_ISO_8859_1_porter.c:79-88 | this table, entry by entry, is sorted with right links |
| `PorterTables.Step2TableOk` | 3rd_party/libstemmer_c/src_c/stem_ISO_8859_1_porter.c:90-133 | this table, entry by entry, is sorted with right links |
| `PorterTables.Step3TableOk` | 3rd_party/libstemmer_c/src_c/stem_ISO_8859_1_porter.c:135-152 | this table, entry by entry, is sorted with right links |
| `PorterTables.Step4TableOk` | 3rd_party/libstemmer_c/src_c/stem_ISO_8859_1_porter.c:154-195 | this table, entry by entry, is sorted with right links |
| `SnowballRuntime.Env.constructor` | 3rd_party/libstemmer_c/runtime/api.c:5-40 | an empty text, size 1, cursors, integers and flags all zero: the buffer invariant size == l + 1 <= capacity |
| `SnowballRuntime.Env.ReplaceS` | 3rd_party/libstemmer_c/runtime/utilities.c:348-378 | the slice is replaced and nothing else; the cursor moves with the text behind the slice, or to the start of the slice when inside it; the buffer invariant is kept |
| `SnowballRuntime.Env.SliceFromS` | 3rd_party/libstemmer_c/runtime/utilities.c:380-400 | slice check and replacement: an error with nothing changed exactly when bra, ket and l are out of order |
| `SnowballRuntime.Env.SliceDel` | 3rd_party/libstemmer_c/runtime/utilities.c:406-408 | the slice disappears, or an error with nothing changed |
| `SnowballRuntime.Env.InsertS` | 3rd_party/libstemmer_c/runtime/utilities.c:410-417 | replacement at bra..ket with bra and ket moved along when they lie behind the place |
| `SnowballRuntime.Env.SetCurrent` | 3rd_party/libstemmer_c/runtime/api.c:60-65 | the text is exactly the new word and the cursor is 0, whatever was there before |
| `SnowballRuntime.Env.EqS` | 3rd_party/libstemmer_c/runtime/utilities.c:194-197 | true exactly when the string stands at the cursor, which then moves past it |
| `SnowballRuntime.Env.EqSB` | 3rd_party/libstemmer_c/runtime/utilities.c:199-202 | true exactly when the string ends at the cursor, above the backward limit |
| `SnowballRuntime.Env.SkipGroup` | 3rd_party/libstemmer_c/runtime/utilities.c:146-156 | with repeat: the cursor stops at the first symbol outside (or inside) the group |
| `SnowballRuntime.Env.SkipBackToGroup` | 3rd_party/libstemmer_c/runtime/utilities.c:182-192 | backward with repeat: the cursor stops behind the last symbol of the group |
| `SnowballRuntime.Env.StepInGroup` | 3rd_party/libstemmer_c/runtime/utilities.c:146-156 | one step forward on a symbol of the group, else a code and no move |
| `SnowballRuntime.Env.StepBackGroup` | 3rd_party/libstemmer_c/runtime/utilities.c:158-192 | one step back on a symbol inside (or outside) the group, else a code and no move |
| `SnowballRuntime.Env.IncreaseSize` | 3rd_party/libstemmer_c/runtime/utilities.c:326-341 | the larger buffer begins with the old text |
| `PorterSpec.StemShrinks` | 3rd_party/libstemmer_c/src_c/stem_ISO_8859_1_porter.c:254-744 | the stem is no longer than the word, and a word without Y gives a stem without Y |
| `Porter.GroupIsVowels` | 3rd_party/libstemmer_c/src_c/stem_ISO_8859_1_porter.c:197-197 | the bit set g_v holds exactly a, e, i, o, u, y |
| `Porter.GroupIsVowelsWXY` | 3rd_party/libstemmer_c/src_c/stem_ISO_8859_1_porter.c:199-199 | the bit set g_v_WXY holds exactly the vowels and w, x, Y |
| `Porter.GuardHarmless` | 3rd_party/libstemmer_c/src_c/stem_ISO_8859_1_porter.c:313-315 | a word that fails a length and mask guard ends with no entry of the guarded table |
| `Porter.Step1aGuard` | 3rd_party/libstemmer_c/src_c/stem_ISO_8859_1_porter.c:257-258 | the guard of step 1a never changes the outcome |
| `Porter.Step1bGuard` | 3rd_party/libstemmer_c/src_c/stem_ISO_8859_1_porter.c:285-286 | the guard of step 1b never changes the outcome |
| `Porter.TidyGuard` | 3rd_party/libstemmer_c/src_c/stem_ISO_8859_1_porter.c:313-315 | the guard of the second lookup of step 1b only skips words that no entry but the empty one fits |
| `Porter.Step4Guard` | 3rd_party/libstemmer_c/src_c/stem_ISO_8859_1_porter.c:501-502 | the guard of step 4 never changes the outcome |
| `Porter.RStep1a` | 3rd_party/libstemmer_c/src_c/stem_ISO_8859_1_porter.c:254-280 | the text becomes step 1a of the word; no negative code |
| `Porter.RStep1b` | 3rd_party/libstemmer_c/src_c/stem_ISO_8859_1_porter.c:282-355 | the text becomes step 1b of the word, with its second lookup; no negative code |
| `Porter.RStep1c` | 3rd_party/libstemmer_c/src_c/stem_ISO_8859_1_porter.c:357-377 | the text becomes step 1c of the word; no negative code |
| `Porter.RStep2` | 3rd_party/libstemmer_c/src_c/stem_ISO_8859_1_porter.c:379-464 | the text becomes step 2 of the word, guard, 20 table entries and 14 actions; no negative code |
| `Porter.RStep3` | 3rd_party/libstemmer_c/src_c/stem_ISO_8859_1_porter.c:466-496 | the text becomes step 3 of the word; no negative code |
| `Porter.RStep4` | 3rd_party/libstemmer_c/src_c/stem_ISO_8859_1_porter.c:498-531 | the text becomes step 4 of the word; no negative code |
| `Porter.RShortV` | 3rd_party/libstemmer_c/src_c/stem_ISO_8859_1_porter.c:237-242 | true exactly when the text before the cursor ends consonant, vowel, consonant other than w, x, Y |
| `Porter.RStep5a` | 3rd_party/libstemmer_c/src_c/stem_ISO_8859_1_porter.c:533-564 | the text becomes step 5a of the word; no negative code |
| `Porter.RStep5b` | 3rd_party/libstemmer_c/src_c/stem_ISO_8859_1_porter.c:566-579 | the text becomes step 5b of the word; no negative code |
| `Porter.MarkRest` | 3rd_party/libstemmer_c/src_c/stem_ISO_8859_1_porter.c:594-620 | the repeat loop ends and has marked every y after a vowel |
| `Porter.SetRegions` | 3rd_party/libstemmer_c/src_c/stem_ISO_8859_1_porter.c:621-648 | the two marks are the regions R1 and R2 of the text |
| `Porter.BackwardSteps` | 3rd_party/libstemmer_c/src_c/stem_ISO_8859_1_porter.c:651-714 | the eight steps one after the other |
| `Porter.Prelude` | 3rd_party/libstemmer_c/src_c/stem_ISO_8859_1_porter.c:581-649 | consonant y is marked, the flag says whether any was, and the two regions are those of the marked word |
| `Porter.UnmarkAll` | 3rd_party/libstemmer_c/src_c/stem_ISO_8859_1_porter.c:716-742 | every Y becomes y exactly when the flag is set |
| `Porter.StemText` | 3rd_party/libstemmer_c/src_c/stem_ISO_8859_1_porter.c:581-744 | the text becomes its Porter stem, from any environment, always with code 1 |
| `Porter.Stemmer.StemWord` | 3rd_party/libstemmer_c/libstemmer/libstemmer.c:76-89 | the stem of the word, whatever words came before; the terminator is written inside the buffer |
| `PorterMeasure.RegionsAreMeasures` | 3rd_party/libstemmer_c/src_c/stem_ISO_8859_1_porter.c:621-648 | for every word and place: R1 has begun exactly when the word before it has a vowel-consonant pair, R2 exactly when it has two |
| `PorterMeasure.StepsByMeasure` | 3rd_party/libstemmer_c/src_c/stem_ISO_8859_1_porter.c:581-744 | for every word: the eight steps by the two positions give what the steps by the number of pairs before the suffix give |
| `PorterMarks.MarkMeans` | 3rd_party/libstemmer_c/src_c/stem_ISO_8859_1_porter.c:581-620 | y is marked at the start of a word and after a vowel, and nothing else changes |
| `PorterMarks.EndedE` | 3rd_party/libstemmer_c/src_c/stem_ISO_8859_1_porter.c:533-564 | a last e goes after two pairs, and after one unless a short syllable is before it |
| `PorterMarks.EndedLL` | 3rd_party/libstemmer_c/src_c/stem_ISO_8859_1_porter.c:566-579 | a last ll loses one l after two pairs |
| `PorterLawsFirst.Sses` | 3rd_party/libstemmer_c/src_c/stem_ISO_8859_1_porter.c:263-267 | for every x: the stem of x with sses is that of x with ss |
| `PorterLawsFirst.Ies` | 3rd_party/libstemmer_c/src_c/stem_ISO_8859_1_porter.c:268-272 | for every x: the stem of x with ies is that of x with i |
| `PorterLawsFirst.S` | 3rd_party/libstemmer_c/src_c/stem_ISO_8859_1_porter.c:273-277 | for every x that leaves no longer suffix: the stem of x with s is that of x |
| `PorterLawsFirst.Ss` | 3rd_party/libstemmer_c/src_c/stem_ISO_8859_1_porter.c:257-262 | x with ss keeps it, unless it is ness |
| `PorterLawsFirst.Eed` | 3rd_party/libstemmer_c/src_c/stem_ISO_8859_1_porter.c:291-299 | x with eed: as x with ee if x has a pair, else it stays |
| `PorterLawsFirst.PastStays` | 3rd_party/libstemmer_c/src_c/stem_ISO_8859_1_porter.c:300-308 | ed and ing stay when no vowel is before them |
| `PorterLawsFirst.PastE` | 3rd_party/libstemmer_c/src_c/stem_ISO_8859_1_porter.c:318-326 | after at, bl, iz and a short word of one pair the stem is that of the word with e |
| `PorterLawsFirst.PastDouble` | 3rd_party/libstemmer_c/src_c/stem_ISO_8859_1_porter.c:327-335 | one of a double consonant goes |
| `PorterLawsFirst.PastPlain` | 3rd_party/libstemmer_c/src_c/stem_ISO_8859_1_porter.c:309-316 | otherwise the stem of the word before ed or ing |
| `PorterLawsFirst.Y` | 3rd_party/libstemmer_c/src_c/stem_ISO_8859_1_porter.c:357-377 | a last y becomes i exactly when a vowel is before it |
| `PorterLaws.Anci` | 3rd_party/libstemmer_c/src_c/stem_ISO_8859_1_porter.c:402-406 | anci behind any x with a pair: as ance; without one it stays |
| `PorterLaws.Enci` | 3rd_party/libstemmer_c/src_c/stem_ISO_8859_1_porter.c:397-401 | enci behind any x with a pair: as ence; without one it stays |
| `PorterLaws.Abli` | 3rd_party/libstemmer_c/src_c/stem_ISO_8859_1_porter.c:407-411 | abli behind any x with a pair: as able; without one it stays |
| `PorterLaws.Eli` | 3rd_party/libstemmer_c/src_c/stem_ISO_8859_1_porter.c:417-421 | eli behind any x with a pair: as e; without one it stays |
| `PorterLaws.Alli` | 3rd_party/libstemmer_c/src_c/stem_ISO_8859_1_porter.c:432-436 | alli behind any x with a pair: as al, not after tion; without one it stays |
| `PorterLaws.Ousli` | 3rd_party/libstemmer_c/src_c/stem_ISO_8859_1_porter.c:447-451 | ousli behind any x with a pair: ous stays with one pair and goes with two; without one it stays |
| `PorterLaws.Entli` | 3rd_party/libstemmer_c/src_c/stem_ISO_8859_1_porter.c:412-416 | entli behind any x with a pair: as ent; without one it stays |
| `PorterLaws.Aliti` | 3rd_party/libstemmer_c/src_c/stem_ISO_8859_1_porter.c:437-441 | aliti behind any x with a pair: as al, not after tion |
| `PorterLaws.Biliti` | 3rd_party/libstemmer_c/src_c/stem_ISO_8859_1_porter.c:457-461 | biliti behind any x with a pair: as ble |
| `PorterLaws.Iviti` | 3rd_party/libstemmer_c/src_c/stem_ISO_8859_1_porter.c:452-456 | iviti behind any x with a pair: as ive |
| `PorterLaws.Tional` | 3rd_party/libstemmer_c/src_c/stem_ISO_8859_1_porter.c:392-396 | tional behind any x with a pair: as tion, not after a |
| `PorterLaws.Ational` | 3rd_party/libstemmer_c/src_c/stem_ISO_8859_1_porter.c:427-431 | ational behind any x with a pair: as ate |
| `PorterLaws.Alism` | 3rd_party/libstemmer_c/src_c/stem_ISO_8859_1_porter.c:437-441 | alism behind any x with a pair: as al, not after tion |
| `PorterLaws.Ation` | 3rd_party/libstemmer_c/src_c/stem_ISO_8859_1_porter.c:427-431 | ation behind any x with a pair: as ate, not after iz |
| `PorterLaws.Ization` | 3rd_party/libstemmer_c/src_c/stem_ISO_8859_1_porter.c:422-426 | ization behind any x with a pair: as ize |
| `PorterLaws.Izer` | 3rd_party/libstemmer_c/src_c/stem_ISO_8859_1_porter.c:422-426 | izer behind any x with a pair: as ize |
| `PorterLaws.Ator` | 3rd_party/libstemmer_c/src_c/stem_ISO_8859_1_porter.c:427-431 | ator behind any x with a pair: as ate; without one it stays |
| `PorterLaws.Iveness` | 3rd_party/libstemmer_c/src_c/stem_ISO_8859_1_porter.c:452-456 | iveness behind any x with a pair: as ive |
| `PorterLaws.Fulness` | 3rd_party/libstemmer_c/src_c/stem_ISO_8859_1_porter.c:442-446 | fulness behind any x with a pair: as ful |
| `PorterLaws.Ousness` | 3rd_party/libstemmer_c/src_c/stem_ISO_8859_1_porter.c:447-451 | ousness behind any x with a pair: ous stays with one pair and goes with two |
| `PorterLawsLate.Icate` | 3rd_party/libstemmer_c/src_c/stem_ISO_8859_1_porter.c:484-488 | icate behind any x: as ic if x has a pair, else icat is left |
| `PorterLawsLate.Ative` | 3rd_party/libstemmer_c/src_c/stem_ISO_8859_1_porter.c:489-493 | ative goes if x has a pair, and steps 4 and 5 follow; else ativ is left |
| `PorterLawsLate.Alize` | 3rd_party/libstemmer_c/src_c/stem_ISO_8859_1_porter.c:479-483 | alize: as al if x has a pair, else aliz is left |
| `PorterLawsLate.Iciti` | 3rd_party/libstemmer_c/src_c/stem_ISO_8859_1_porter.c:484-488 | iciti: as ic if x has a pair, else it stays |
| `PorterLawsLate.Ical` | 3rd_party/libstemmer_c/src_c/stem_ISO_8859_1_porter.c:484-488 | ical: as ic if x has a pair, else it stays |
| `PorterLawsLate.Ful` | 3rd_party/libstemmer_c/src_c/stem_ISO_8859_1_porter.c:489-493 | ful goes if x has a pair, and the stem is that of x when steps 1 to 3 leave x alone; else it stays |
| `PorterLawsLate.Ness` | 3rd_party/libstemmer_c/src_c/stem_ISO_8859_1_porter.c:489-493 | ness likewise, when no longer suffix of step 2 is there |
| `PorterLawsLate.Ic` | 3rd_party/libstemmer_c/src_c/stem_ISO_8859_1_porter.c:511-515 | ic behind x goes exactly when x has two pairs, and step 5 follows; else it stays |
| `PorterLawsLate.Ance` | 3rd_party/libstemmer_c/src_c/stem_ISO_8859_1_porter.c:511-515 | ance behind x goes exactly when x has two pairs, and step 5 follows; else only its e goes |
| `PorterLawsLate.Ence` | 3rd_party/libstemmer_c/src_c/stem_ISO_8859_1_porter.c:511-515 | ence behind x goes exactly when x has two pairs, and step 5 follows; else only its e goes |
| `PorterLawsLate.Able` | 3rd_party/libstemmer_c/src_c/stem_ISO_8859_1_porter.c:511-515 | able behind x goes exactly when x has two pairs, and step 5 follows; else only its e goes |
| `PorterLawsLate.Ible` | 3rd_party/libstemmer_c/src_c/stem_ISO_8859_1_porter.c:511-515 | ible behind x goes exactly when x has two pairs, and step 5 follows; else only its e goes |
| `PorterLawsLate.Ate` | 3rd_party/libstemmer_c/src_c/stem_ISO_8859_1_porter.c:511-515 | ate behind x goes exactly when x has two pairs, and step 5 follows; else its e goes, unless that leaves a short word |
| `PorterLawsLate.Ive` | 3rd_party/libstemmer_c/src_c/stem_ISO_8859_1_porter.c:511-515 | ive behind x goes exactly when x has two pairs, and step 5 follows; else its e goes, unless that leaves a short word |
| `PorterLawsLate.Ize` | 3rd_party/libstemmer_c/src_c/stem_ISO_8859_1_porter.c:511-515 | ize behind x goes exactly when x has two pairs, and step 5 follows; else its e goes, unless that leaves a short word |
| `PorterLawsLate.Iti` | 3rd_party/libstemmer_c/src_c/stem_ISO_8859_1_porter.c:511-515 | iti behind x goes exactly when x has two pairs, and step 5 follows; else it stays |
| `PorterLawsLate.Al` | 3rd_party/libstemmer_c/src_c/stem_ISO_8859_1_porter.c:511-515 | al behind x goes exactly when x has two pairs, and step 5 follows; else it stays |
| `PorterLawsLate.Ism` | 3rd_party/libstemmer_c/src_c/stem_ISO_8859_1_porter.c:511-515 | ism behind x goes exactly when x has two pairs, and step 5 follows; else it stays |
| `PorterLawsLate.Er` | 3rd_party/libstemmer_c/src_c/stem_ISO_8859_1_porter.c:511-515 | er behind x goes exactly when x has two pairs, and step 5 follows; else it stays |
| `PorterLawsLate.Ant` | 3rd_party/libstemmer_c/src_c/stem_ISO_8859_1_porter.c:511-515 | ant behind x goes exactly when x has two pairs, and step 5 follows; else it stays |
| `PorterLawsLate.Ent` | 3rd_party/libstemmer_c/src_c/stem_ISO_8859_1_porter.c:511-515 | ent behind x goes exactly when x has two pairs, and step 5 follows; else it stays |
| `PorterLawsLate.Ment` | 3rd_party/libstemmer_c/src_c/stem_ISO_8859_1_porter.c:511-515 | ment behind x goes exactly when x has two pairs, and step 5 follows; else it stays |
| `PorterLawsLate.Ement` | 3rd_party/libstemmer_c/src_c/stem_ISO_8859_1_porter.c:511-515 | ement behind x goes exactly when x has two pairs, and step 5 follows; else it stays |
| `PorterLawsLate.Ou` | 3rd_party/libstemmer_c/src_c/stem_ISO_8859_1_porter.c:511-515 | ou behind x goes exactly when x has two pairs, and step 5 follows; else it stays |
| `PorterLawsLate.Ion` | 3rd_party/libstemmer_c/src_c/stem_ISO_8859_1_porter.c:516-528 | ion goes exactly when x has two pairs and ends with s or t |
| `PorterLawsLate.E` | 3rd_party/libstemmer_c/src_c/stem_ISO_8859_1_porter.c:533-564 | x with e where e alone is the suffix: e goes with two pairs, and with one unless x is short |
| `PorterLawsLate.LL` | 3rd_party/libstemmer_c/src_c/stem_ISO_8859_1_porter.c:566-579 | x with ll: one l goes exactly when two pairs are before the second |
| `PorterExamples.Ponies` | 3rd_party/libstemmer_c/src_c/stem_ISO_8859_1_porter.c:254-377 | the stem of ponies is poni |
| `PorterExamples.Caresses` | 3rd_party/libstemmer_c/src_c/stem_ISO_8859_1_porter.c:254-377 | the stem of caresses is caress |
| `PorterExamples.Caress` | 3rd_party/libstemmer_c/src_c/stem_ISO_8859_1_porter.c:254-377 | the stem of caress is caress |
| `PorterExamples.Books` | 3rd_party/libstemmer_c/src_c/stem_ISO_8859_1_porter.c:254-377 | the stem of books is book |
| `PorterExamples.Agreed` | 3rd_party/libstemmer_c/src_c/stem_ISO_8859_1_porter.c:254-377 | the stem of agreed is agre |
| `PorterExamples.Feed` | 3rd_party/libstemmer_c/src_c/stem_ISO_8859_1_porter.c:254-377 | the stem of feed is feed |
| `PorterExamples.Sing` | 3rd_party/libstemmer_c/src_c/stem_ISO_8859_1_porter.c:254-377 | the stem of sing is sing |
| `PorterExamples.Bled` | 3rd_party/libstemmer_c/src_c/stem_ISO_8859_1_porter.c:254-377 | the stem of bled is bled |
| `PorterExamples.Working` | 3rd_party/libstemmer_c/src_c/stem_ISO_8859_1_porter.c:254-377 | the stem of working is work |
| `PorterExamples.Filing` | 3rd_party/libstemmer_c/src_c/stem_ISO_8859_1_porter.c:254-377 | the stem of filing is file |
| `PorterExamples.Rated` | 3rd_party/libstemmer_c/src_c/stem_ISO_8859_1_porter.c:254-377 | the stem of rated is rate |
| `PorterExamples.Sized` | 3rd_party/libstemmer_c/src_c/stem_ISO_8859_1_porter.c:254-377 | the stem of sized is size |
| `PorterExamples.Troubled` | 3rd_party/libstemmer_c/src_c/stem_ISO_8859_1_porter.c:254-377 | the stem of troubled is troubl |
| `PorterExamples.Hopping` | 3rd_party/libstemmer_c/src_c/stem_ISO_8859_1_porter.c:254-377 | the stem of hopping is hop |
| `PorterExamples.Happy` | 3rd_party/libstemmer_c/src_c/stem_ISO_8859_1_porter.c:254-377 | the stem of happy is happi |
| `PorterExamples.Sky` | 3rd_party/libstemmer_c/src_c/stem_ISO_8859_1_porter.c:254-377 | the stem of sky is sky |
| `PorterExamples.Tenanci` | 3rd_party/libstemmer_c/src_c/stem_ISO_8859_1_porter.c:379-464 | the stem of tenanci is tenanc |
| `PorterExamples.Valenci` | 3rd_party/libstemmer_c/src_c/stem_ISO_8859_1_porter.c:379-464 | the stem of valenci is valenc |
| `PorterExamples.Capabli` | 3rd_party/libstemmer_c/src_c/stem_ISO_8859_1_porter.c:379-464 | the stem of capabli is capabl |
| `PorterExamples.Vileli` | 3rd_party/libstemmer_c/src_c/stem_ISO_8859_1_porter.c:379-464 | the stem of vileli is vile |
| `PorterExamples.Formalli` | 3rd_party/libstemmer_c/src_c/stem_ISO_8859_1_porter.c:379-464 | the stem of formalli is formal |
| `PorterExamples.Callousli` | 3rd_party/libstemmer_c/src_c/stem_ISO_8859_1_porter.c:379-464 | the stem of callousli is callous |
| `PorterExamples.Silentli` | 3rd_party/libstemmer_c/src_c/stem_ISO_8859_1_porter.c:379-464 | the stem of silentli is silent |
| `PorterExamples.Formaliti` | 3rd_party/libstemmer_c/src_c/stem_ISO_8859_1_porter.c:379-464 | the stem of formaliti is formal |
| `PorterExamples.Sensibiliti` | 3rd_party/libstemmer_c/src_c/stem_ISO_8859_1_porter.c:379-464 | the stem of sensibiliti is sensibl |
| `PorterExamples.Passiviti` | 3rd_party/libstemmer_c/src_c/stem_ISO_8859_1_porter.c:379-464 | the stem of passiviti is passiv |
| `PorterExamples.Optional` | 3rd_party/libstemmer_c/src_c/stem_ISO_8859_1_porter.c:379-464 | the stem of optional is option |
| `PorterExamples.Relational` | 3rd_party/libstemmer_c/src_c/stem_ISO_8859_1_porter.c:379-464 | the stem of relational is relat |
| `PorterExamples.Feudalism` | 3rd_party/libstemmer_c/src_c/stem_ISO_8859_1_porter.c:379-464 | the stem of feudalism is feudal |
| `PorterExamples.Relation` | 3rd_party/libstemmer_c/src_c/stem_ISO_8859_1_porter.c:379-464 | the stem of relation is relat |
| `PorterExamples.Ionization` | 3rd_party/libstemmer_c/src_c/stem_ISO_8859_1_porter.c:379-464 | the stem of ionization is ioniz |
| `PorterExamples.Ionizer` | 3rd_party/libstemmer_c/src_c/stem_ISO_8859_1_porter.c:379-464 | the stem of ionizer is ioniz |
| `PorterExamples.Senator` | 3rd_party/libstemmer_c/src_c/stem_ISO_8859_1_porter.c:379-464 | the stem of senator is senat |
| `PorterExamples.Massiveness` | 3rd_party/libstemmer_c/src_c/stem_ISO_8859_1_porter.c:379-464 | the stem of massiveness is massiv |
| `PorterExamples.Hopefulness` | 3rd_party/libstemmer_c/src_c/stem_ISO_8859_1_porter.c:379-464 | the stem of hopefulness is hope |
| `PorterExamples.Callousness` | 3rd_party/libstemmer_c/src_c/stem_ISO_8859_1_porter.c:379-464 | the stem of callousness is callous |
| `PorterExamples.Triplicate` | 3rd_party/libstemmer_c/src_c/stem_ISO_8859_1_porter.c:466-496 | the stem of triplicate is triplic |
| `PorterExamples.Formative` | 3rd_party/libstemmer_c/src_c/stem_ISO_8859_1_porter.c:466-496 | the stem of formative is form |
| `PorterExamples.Formalize` | 3rd_party/libstemmer_c/src_c/stem_ISO_8859_1_porter.c:466-496 | the stem of formalize is formal |
| `PorterExamples.Toniciti` | 3rd_party/libstemmer_c/src_c/stem_ISO_8859_1_porter.c:466-496 | the stem of toniciti is tonic |
| `PorterExamples.Comical` | 3rd_party/libstemmer_c/src_c/stem_ISO_8859_1_porter.c:466-496 | the stem of comical is comic |
| `PorterExamples.Hopeful` | 3rd_party/libstemmer_c/src_c/stem_ISO_8859_1_porter.c:466-496 | the stem of hopeful is hope |
| `PorterExamples.Darkness` | 3rd_party/libstemmer_c/src_c/stem_ISO_8859_1_porter.c:466-496 | the stem of darkness is dark |
| `PorterExamples.Idiotic` | 3rd_party/libstemmer_c/src_c/stem_ISO_8859_1_porter.c:498-531 | the stem of idiotic is idiot |
| `PorterExamples.Allowance` | 3rd_party/libstemmer_c/src_c/stem_ISO_8859_1_porter.c:498-531 | the stem of allowance is allow |
| `PorterExamples.Inference` | 3rd_party/libstemmer_c/src_c/stem_ISO_8859_1_porter.c:498-531 | the stem of inference is infer |
| `PorterExamples.Adjustable` | 3rd_party/libstemmer_c/src_c/stem_ISO_8859_1_porter.c:498-531 | the stem of adjustable is adjust |
| `PorterExamples.Defensible` | 3rd_party/libstemmer_c/src_c/stem_ISO_8859_1_porter.c:498-531 | the stem of defensible is defens |
| `PorterExamples.Activate` | 3rd_party/libstemmer_c/src_c/stem_ISO_8859_1_porter.c:498-531 | the stem of activate is activ |
| `PorterExamples.Effective` | 3rd_party/libstemmer_c/src_c/stem_ISO_8859_1_porter.c:498-531 | the stem of effective is effect |
| `PorterExamples.Satirize` | 3rd_party/libstemmer_c/src_c/stem_ISO_8859_1_porter.c:498-531 | the stem of satirize is satir |
| `PorterExamples.Maturiti` | 3rd_party/libstemmer_c/src_c/stem_ISO_8859_1_porter.c:498-531 | the stem of maturiti is matur |
| `PorterExamples.Revival` | 3rd_party/libstemmer_c/src_c/stem_ISO_8859_1_porter.c:498-531 | the stem of revival is reviv |
| `PorterExamples.Communism` | 3rd_party/libstemmer_c/src_c/stem_ISO_8859_1_porter.c:498-531 | the stem of communism is commun |
| `PorterExamples.Adoption` | 3rd_party/libstemmer_c/src_c/stem_ISO_8859_1_porter.c:498-531 | the stem of adoption is adopt |
| `PorterExamples.Airliner` | 3rd_party/libstemmer_c/src_c/stem_ISO_8859_1_porter.c:498-531 | the stem of airliner is airlin |
| `PorterExamples.Rigorousli` | 3rd_party/libstemmer_c/src_c/stem_ISO_8859_1_porter.c:498-531 | the stem of rigorousli is rigor |
| `PorterExamples.Irritant` | 3rd_party/libstemmer_c/src_c/stem_ISO_8859_1_porter.c:498-531 | the stem of irritant is irrit |
| `PorterExamples.Dependent` | 3rd_party/libstemmer_c/src_c/stem_ISO_8859_1_porter.c:498-531 | the stem of dependent is depend |
| `PorterExamples.Adjustment` | 3rd_party/libstemmer_c/src_c/stem_ISO_8859_1_porter.c:498-531 | the stem of adjustment is adjust |
| `PorterExamples.Replacement` | 3rd_party/libstemmer_c/src_c/stem_ISO_8859_1_porter.c:498-531 | the stem of replacement is replac |
| `PorterExamples.Rigorou` | 3rd_party/libstemmer_c/src_c/stem_ISO_8859_1_porter.c:498-531 | the stem of rigorou is rigor |
| `PorterExamples.Probate` | 3rd_party/libstemmer_c/src_c/stem_ISO_8859_1_porter.c:533-579 | the stem of probate is probat |
| `PorterExamples.Rate` | 3rd_party/libstemmer_c/src_c/stem_ISO_8859_1_porter.c:533-579 | the stem of rate is rate |
| `PorterExamples.Cease` | 3rd_party/libstemmer_c/src_c/stem_ISO_8859_1_porter.c:533-579 | the stem of cease is ceas |
| `PorterExamples.Controll` | 3rd_party/libstemmer_c/src_c/stem_ISO_8859_1_porter.c:533-579 | the stem of controll is control |
| `PorterExamples.Roll` | 3rd_party/libstemmer_c/src_c/stem_ISO_8859_1_porter.c:533-579 | the stem of roll is roll |
| `UrlClassifier.Classifier.Push` | src/crawler/Url_classifier.cc:70-94 | host queue first, else the first empty queue, else the top queue |
| `UrlClassifier.Classifier.Pop` | src/crawler/Url_classifier.cc:117-131 | the front of that queue leaves, or the error for the missing or empty queue |
| `UrlClassifier.Classifier.Peek` | src/crawler/Url_classifier.cc:134-171 | the front, after an empty or missing queue has taken one host from the top queue; the error when there is nothing |
| `UrlClassifier.Classifier.Drain` | src/crawler/Url_classifier.cc:143-147 | the loop moves all urls of the top host, and only these, in priority order |
| `UrlClassifier.Classifier.Size` | src/crawler/Url_classifier.cc:40-47 | the number of urls held anywhere |
| `UrlClassifier.Classifier.constructor` | src/crawler/Url_classifier.hh:59-67 | so many empty queues, numbered from 0 |
| `UrlClassifier.Classifier.EmptyQueue` | src/crawler/Url_classifier.cc:49-59 | whether that queue is empty, or the error for a missing one |
| `ClassifierLaws.FreshRunSingleHost` | src/crawler/Url_classifier.cc:70-171 | after any run from a new classifier every queue holds urls of its own host only |
| `ClassifierLaws.PeekTakesGreatestHost` | src/crawler/Url_classifier.cc:139-152 | a peek on an empty queue takes exactly the top urls of the greatest host |
| `ClassifierLaws.FrontStable` | src/crawler/Url_classifier.cc:70-171 | no pushes, peeks and pops of other queues change the front of a queue |
| `ClassifierLaws.PushConserves` | src/crawler/Url_classifier.cc:70-94 | a push adds exactly its url to the urls held |
| `ClassifierLaws.PopConserves` | src/crawler/Url_classifier.cc:117-131 | a pop takes exactly the front away |
| `ClassifierLaws.PeekConserves` | src/crawler/Url_classifier.cc:134-171 | a peek loses and invents no url |
| `ClassifierLaws.PushPlaces` | src/crawler/Url_classifier.cc:70-94 | a url goes behind those of its host, else opens the first empty queue, and waits in the priority queue exactly when every queue is taken by another host; no other queue changes |
| `ClassifierLaws.PopFails` | src/crawler/Url_classifier.cc:117-131 | a pop fails exactly for a number without queue and for an empty queue, with the error that says whether urls wait |
| `ClassifierLaws.PeekFails` | src/crawler/Url_classifier.cc:134-171 | a peek fails exactly when the queue has nothing and nothing waits; a queue with urls is only read |
| `ClassifierLaws.TwoQueuesOneHost` | src/crawler/Url_classifier.cc:70-171 | the classifier alone does not keep hosts apart: a run of seven calls after which two queues serve one host |
| `Hosts.SteadyExactly` | src/common/Url.cc:335-379 | normalising a host again changes nothing exactly when none of its escapes is an upper-case letter, because letters are lowered before escapes are decoded |
| `Hosts.LowerLetters` | src/common/Url.cc:335-344 | each of the 26 letters, and nothing else, is lowered |
| `Hosts.NetworkHostIs` | src/common/Url.cc:335-379 | a host whose escapes all decode, as valid hosts have, reaches the decoded name in lower case |
| `Hosts.DistinctNames` | src/common/Url.cc:335-379 | so valid hosts are kept apart exactly when no two of them decode to one name up to case |
| `Hosts.EscapeReachesSame` | src/common/Url.cc:335-379 | spelling a safe byte of a host as an escape gives another host as written and the same host on the network |
| `Hosts.EscapedDigitPair` | src/common/Url.cc:501-520 | f%33oo.com and f3oo.com are such a pair |
| `Hosts.UpperNotSteady` | src/common/Url.cc:335-379 | an escaped upper-case letter anywhere in a host makes a second normalisation change it |
| `Hosts.NormalHostStored` | src/common/Url.cc:359-379 | parsing the normalised url again leaves the host alone, for hosts as Url::host stores them |
| `Crawler.GlobalInfo.constructor` | src/crawler/crawler.cc:279-344 | a fleet of idle handles over a new classifier |
| `Crawler.GlobalInfo.Accept` | src/crawler/crawler.cc:1299-1302 | the new url goes to the classifier |
| `Crawler.GlobalInfo.Reschedule` | src/crawler/crawler.cc:800-850 | EasyHandle::reschedule: the model's step, or nothing when both queues are empty |
| `Crawler.EasyHandle.Choose` | src/crawler/crawler.cc:1017-1058 | one url decided on: robots.txt when it is missing or the host of the document, normalised twice, differs from the host of the url, HEAD when allowed, dropped otherwise |
| `Crawler.EasyHandle.Begin` | src/crawler/crawler.cc:811-844 | the switch on the state: the request that is started and the new state, or the error |
| `Crawler.GlobalInfo.SaveAndPop` | src/crawler/crawler.cc:963-970 | a document is saved and counted and its url popped |
| `Crawler.GlobalInfo.RobotsDone` | src/crawler/crawler.cc:899-934 | a finished robots.txt transfer sets the robots entry and goes on |
| `Crawler.GlobalInfo.Decide` | src/crawler/crawler.cc:893-1006 | the three branches of a finished transfer: go on, save and pop, or fetch the content |
| `Crawler.GlobalInfo.Advance` | src/crawler/crawler.cc:1009-1060 | the loop over the queue: drop what robots.txt forbids, stop at the first url to work on or to ask robots.txt for |
| `Crawler.GlobalInfo.Done` | src/crawler/crawler.cc:860-1064 | EasyHandle::done with its final reschedule: the model's step, errors included |
| `Crawler.GlobalInfo.Tick` | src/crawler/crawler.cc:1222-1230 | GlobalInfo::reschedule over all handles in order |
| `Crawler.GlobalInfo.Complete` | src/crawler/crawler.cc:860-1064 | from a state that keeps the invariant, done never throws and keeps it |
| `FleetRuns.NextOk` | src/crawler/crawler.cc:800-1064 | each of the three events keeps the invariant |
| `FleetRuns.ReachableOk` | src/crawler/crawler.cc:800-1064 | every reachable state: a non-empty top queue means no empty queue, no top host is owned by a queue, hosts of non-empty queues differ, each handle's state fits its queue, every log entry is justified |
| `FleetRuns.OneTransferPerHost` | src/crawler/crawler.cc:800-1064 | on every run no two handles have transfers in flight for urls of one host |
| `FleetRobots.KnownComes` | src/crawler/crawler.cc:899-934 | every robots entry on every run comes from a completed robots.txt transfer of its handle, and holds the parsed rules exactly when the transfer was good and they parsed, a parse error when it was good and they did not, and unavailable otherwise |
| `FleetRobots.RobotsObeyed` | src/crawler/crawler.cc:820-1060 | every HEAD or GET on every run: an earlier completion of the same handle for that host's robots.txt failed, or had no rules, or had rules that allow the path; no other robots.txt came in between, and the handle had asked for it since its queue took the host |
| `FleetRobots.DropsForbidden` | src/crawler/crawler.cc:1051-1058 | every url dropped on every run: such a completion had rules that forbid its path |
| `FleetRobots.RobotsThenHead` | src/crawler/crawler.cc:899-1060 | a robots.txt that does not forbid the url at the front of a steady host is followed by a HEAD of it |
| `FleetRobots.RobotsThenDrop` | src/crawler/crawler.cc:1051-1058 | one that forbids it is followed by dropping it |
| `FleetRobots.HeadThenGet` | src/crawler/crawler.cc:936-953 | a HEAD that finds something acceptable is followed by a GET of the same url, with nothing saved yet |
| `FleetRobots.ThenSaved` | src/crawler/crawler.cc:936-1006 | a GET, and a HEAD that finds nothing acceptable, end with the document saved and counted first of all |
| `FleetRuns.InFlightIffBusy` | src/crawler/crawler.cc:893-1064 | between events a transfer is in flight exactly for a handle that is not idle, it works on the front of its queue, and NEXT is never seen |
| `FleetRuns.DoneNeverThrows` | src/crawler/crawler.cc:893-1064 | done throws on no reachable state, for every outcome and every order of the priority queue |
| `FleetRuns.RescheduleNeverThrows` | src/crawler/crawler.cc:800-850 | nor does the reschedule of any idle handle |
| `FleetRuns.TickNeverThrows` | src/crawler/crawler.cc:1222-1230 | nor does a tick, with transfers in flight or none, whatever order the priority queue takes at each handle; and a tick can always be made |
| `FleetRuns.Conservation` | src/crawler/crawler.cc:953-1058 | accepted urls equal held plus saved plus dropped urls, as multisets, and the document counter is the number of saved ones |
| `FleetProgress.DoneMeasure` | src/crawler/crawler.cc:893-1064 | a completion lowers four times the urls held plus the ranks of the handles exactly when one normalisation settles the host at the front |
| `FleetProgress.RobotsAgain` | src/crawler/crawler.cc:1020-1034 | otherwise the completion leaves queues, handle and measure as they were and asks for robots.txt again |
| `FleetProgress.TickMeasure` | src/crawler/crawler.cc:1222-1230 | each tick that changes anything lowers it, and a tick changes something when an idle handle has work |
| `FleetProgress.BoundedWork` | src/crawler/crawler.cc:800-1064 | while all held hosts are steady, no run without new urls has more effective events than the measure at its start |
| `FleetQuiet.QuietExactly` | src/crawler/crawler.cc:800-1064 | whatever urls of a set of hosts were accepted, the work left is bounded by the measure exactly when every host of the set is steady |
| `FleetQuiet.Endless` | src/crawler/crawler.cc:1020-1034 | a transfer for an unsteady host can complete any number of times, each time with everything left to do |
| `FleetQuiet.NeverQuiet` | src/crawler/crawler.cc:1020-1034 | ex%41mple.com is such a host |
| `FleetProgress.QuietMeansFinished` | src/crawler/crawler.cc:800-1064 | a reachable fleet with no transfer and no effect of a tick has saved or dropped every url |
| `FleetPoliteness.PoliteExactly` | src/crawler/crawler.cc:806-807 | requests go to normalised hosts, looked up regardless of case: two handles never ask one such host at once exactly when no two accepted hosts normalise to one name up to case |
| `FleetPoliteness.ImpolitePairs` | src/crawler/crawler.cc:806-832 | F3oo.com with f3oo.com, and f%33oo.com with f3oo.com, break it |
| `FleetPoliteness.PoliteWhenDistinct` | src/crawler/crawler.cc:806-807 | one direction of it, for every reachable state |
| `FleetPoliteness.ImpoliteRun` | src/crawler/crawler.cc:806-832 | the run that breaks it: two spellings of one name and one tick; it also shows that states with two transfers in flight are reached |
| `InputLines.LinesCut` | src/crawler/crawler.cc:1286-1309 | the lines hold no separator and, woven with the separators and followed by the tail, are the text |
| `InputLines.CutCharacters` | src/crawler/crawler.cc:1288-1288 | no line and no tail holds a line feed or a carriage return, and nothing else cuts |
| `InputLines.LineWanted` | src/crawler/crawler.cc:1290-1306 | a terminated line is handed on exactly when it has two characters or more and parses as an absolute http url |
| `InputLines.LastWanted` | src/crawler/crawler.cc:1310-1325 | the cut-off line exactly when it is not empty and parses |
| `InputLines.LinesConcat` | src/crawler/crawler.cc:1326-1330 | a text may be cut anywhere when the tail of the first part is read again with the second |
| `InputLines.Connection.PushLine` | src/crawler/crawler.cc:1290-1306 | a line is handed on and counted exactly when it parses as an absolute http url |
| `InputLines.Connection.PushLast` | src/crawler/crawler.cc:1310-1325 | the cut-off line is handed on when it parses, whatever its scheme, and not counted |
| `InputLines.Connection.TakeLines` | src/crawler/crawler.cc:1286-1309 | the loop hands on the wanted urls of the terminated lines in order, counts them and stops behind the last separator |
| `InputLines.Connection.ProcessInputBuff` | src/crawler/crawler.cc:1281-1332 | the buffer keeps its tail, or loses it on a flush that hands it on |
| `InputLines.Connection.Read` | src/crawler/crawler.cc:679-704 | a chunk is added and processed; the end of the stream flushes |
| `InputLines.ChunksDoNotMatter` | src/crawler/crawler.cc:679-704 | for every cutting of the stream into chunks, followed by a flush, the outcome is that of the whole stream at once |
| `InputLines.WholeConnection` | src/crawler/crawler.cc:1281-1332 | from a new connection: the urls of the terminated lines of two characters or more that are absolute http, then the url of a non-empty tail; the counter counts the first kind |
| `Bencode.RoundTrip` | src/common/bencode.cc:138-253 | parsing a printed value, whatever follows it, gives the value and leaves exactly what follows |
| `Bencode.RoundTripExactly` | src/common/bencode.cc:138-253 | that holds for exactly the values without NONE, with 64-bit integers and strings whose length fits an int |
| `Bencode.PrefixFree` | src/common/bencode.cc:227-253 | printing is injective and no printed value is a proper prefix of another |
| `Bencode.ParseWellFormed` | src/common/bencode.cc:138-225 | whatever the input, a parsed value is of that kind |
| `Bencode.Reprint` | src/common/bencode.cc:138-253 | what was accepted parses to the same value after it is printed again |
| `BencodeStream.Input.GetString` | src/common/bencode.cc:309-323 | read_string consumes what the parser says and gives the same string or failure |
| `BencodeStream.GetValue` | src/common/bencode.cc:138-225 | operator>> on a stream: the parse of the unread text, which is then what is left, or failure |
| `BencodeStream.GetList` | src/common/bencode.cc:161-178 | the loop reads items up to the closing letter, as the parser does |
| `BencodeStream.GetDict` | src/common/bencode.cc:180-201 | the loop reads keys and values, later ones replacing earlier ones, as the parser does |
| `BencodeStream.PutValue` | src/common/bencode.cc:227-253 | operator<< appends the printed value and nothing else |
| `BencodeGrammar.PutLookup` | src/common/bencode.cc:180-201 | after an entry is put in, its key has the new value and every other key keeps its presence and its value |
| `BencodeGrammar.PutAllExactly` | src/common/bencode.cc:180-201 | a dictionary is what was read exactly when it is sorted, has the keys that were read and each with its last value |
| `BencodeGrammar.ReadIntExactly` | src/common/bencode.cc:150-155 | a number is read exactly from white space, an optional sign and all the digits that follow, when it fits |
| `BencodeGrammar.ReadStringExactly` | src/common/bencode.cc:309-323 | a string is read exactly from a length that fits 32 bits, a colon and so many characters |
| `BencodeGrammar.ParseExactly` | src/common/bencode.cc:138-225 | the parser gives a value and a rest exactly when the input is a spelling of the value in the grammar, followed by the rest |
| `BencodeGrammar.ItemsExactly` | src/common/bencode.cc:161-178 | the same for the items of a list |
| `BencodeGrammar.EntriesExactly` | src/common/bencode.cc:180-201 | the same for a dictionary: pairs in any order and with repeats, each key kept with its last value |
| `BencodeGrammar.ThrowsExactly` | src/common/bencode.cc:138-225 | an exception leaves the parser exactly on a negative length where a key is due |
| `BencodeGrammar.SignedForm` | src/common/bencode.cc:150-159 | an integer may have blanks and a plus sign |
| `BencodeGrammar.MarkedForm` | src/common/bencode.cc:202-218 | a string may be marked with u |
| `BencodeGrammar.TwoEntries` | src/common/bencode.cc:180-201 | two entries in either order, and one key twice |
| `BencodeGrammar.Examples` | src/common/bencode.cc:227-253 | one value of each kind with its printed form |
| `UrlEscapes.FlattenTokens` | src/common/Url.cc:678-741 | a string is the spelling of its tokens, escapes and single bytes |
| `UrlEscapes.EscapeKeepsMeaning` | src/common/Url.cc:678-717 | for every mask, escaping does not change what the string decodes to |
| `UrlEscapes.EscapeIdempotent` | src/common/Url.cc:678-717 | for every mask, escaping twice is escaping once |
| `UrlEscapes.EscapeCovers` | src/common/Url.cc:678-717 | no masked byte is left outside a valid escape |
| `UrlEscapes.EscapeWellFormed` | src/common/Url.cc:678-717 | with a mask that holds the percent sign every percent sign of the result starts an escape |
| `UrlEscapes.EscapeRoundTrip` | src/common/Url.cc:678-741 | unescape after escape gives the string back exactly when it held no escape |
| `UrlEscapes.UnescapeSafeIdempotentExactly` | src/common/Url.cc:791-813 | a second pass changes nothing exactly when no stray percent sign comes to stand before two digits that spell a safe byte |
| `UrlEscapes.UnescapeSafeMeaningExactly` | src/common/Url.cc:791-813 | the decoded string is kept exactly when no stray percent sign comes to stand before two hex digits |
| `UrlEscapes.ClashExample` | src/common/Url.cc:791-813 | %%341 is such a string |
| `UrlEscapes.NormalizeIdempotentExactly` | src/common/Url.cc:346-357 | the same condition for normalize_escapes |
| `UrlEscapes.NormalizeMeaningExactly` | src/common/Url.cc:346-357 | the same condition for the meaning after normalize_escapes |
| `UrlEscapes.NormalizeEqualAlways` | src/common/Url.cc:346-357 | any two strings normalise to the same one exactly when unescape_safe leaves them with the same tokens up to hex case |
| `UrlEscapes.NormalizeEqualExactly` | src/common/Url.cc:346-357 | two strings in which no stray percent sign comes to stand before two hex digits normalise to the same one exactly when they agree token by token up to hex case and the encoding of safe bytes |
| `UrlEscapes.CanonicalForm` | src/common/Url.cc:346-357 | on well-formed strings: idempotent, meaning kept, equal results exactly for equivalent strings |
| `UrlEscapes.HexDigit` | src/common/utils.hh:311-316 | digit_to_xnum: the upper-case digit whose value is the number |
| `UrlEscapes.HexTable` | src/common/utils.hh:299-316 | digits and values against 0123456789ABCDEF, both ways and in both cases |
| `UrlEscapes.HexLetters` | src/common/utils.hh:299-309 | what counts as a hex digit, as a list |
| `UrlEscapes.DecodeByte` | src/common/Url.cc:721-741 | every byte, written as an escape in either case, decodes to that byte |
| `UrlEscapes.EscapeByte` | src/common/Url.cc:678-717 | every masked byte becomes its upper-case escape, every other byte stays |
| `UrlEscapes.NormalizeByte` | src/common/Url.cc:346-357 | every escape of an unreserved character is decoded, every other gets upper-case digits |
| `UrlEscapes.MaskMeans` | src/common/Url.hh:143-206 | the table and its masks: which bytes each part of a url has to escape |
| `UrlEscapes.SafeMeans` | src/common/Url.hh:167-206 | the bytes neither reserved nor unsafe are exactly the unreserved characters of RFC 2396 |
| `UrlEscapeLoops.ReserveAhead` | src/common/Url.cc:683-693 | the size reserved by the first loop is the size of the result |
| `UrlEscapeLoops.EscapeText` | src/common/Url.cc:678-717 | the byte loop computes the token map |
| `UrlEscapeLoops.UnescapeText` | src/common/Url.cc:721-741 | the byte loop computes the decoding, %00 included |
| `UrlEscapeLoops.UnescapeSafeText` | src/common/Url.cc:791-813 | the byte loop, which copies an unsafe escape byte by byte, computes the token map |
| `UrlEscapeLoops.NormalizeEscapesText` | src/common/Url.cc:346-357 | unescape_safe, then hex digits raised in place |
| `Rfc3986.RemoveDotsOfText` | src/common/Path.cc:13-41 | remove_dot_segments of section 5.2.4 of RFC 3986, written on strings, is a fold over the segments of a rooted path |
| `PathModel.GotAssigned` | src/common/Path.cc:101-177 | get after assign gives the string with its runs of slashes shrunk to one |
| `PathModel.AssignGotExactly` | src/common/Path.cc:101-177 | it gives the string itself exactly when it has no double slash |
| `PathModel.GotAssignExactly` | src/common/Path.cc:101-177 | assign after get gives the path back exactly for paths with non-empty slash-free segments whose flags agree when there is no segment |
| `PathModel.FollowedIsResolve` | src/common/Path.cc:21-35 | the loop of merge and its flag spell what the standard leaves of the segments |
| `PathMerge.MergeIsTarget` | src/common/Path.cc:13-41 | merge then get equals section 5.2.3 followed by section 5.2.4 of RFC 3986, for rooted bases with plain folders and relative references without double slash |
| `PathMerge.BaseExactly` | src/common/Path.cc:13-41 | the bases for which that holds on all such references are exactly those whose folders are non-empty and no dots |
| `PathMerge.ReferenceExactly` | src/common/Path.cc:13-41 | the relative references for which it holds on all such bases are exactly those without double slash |
| `PathMerge.RootedExactly` | src/common/Path.cc:16-17 | a rooted reference replaces the path unchanged: equal to the standard exactly when it has no dot segment and no double slash |
| `PathPairs.PairExactly` | src/common/Path.cc:13-41 | for every rooted base and relative reference: equal to the standard exactly when going up from the folders as written, ignoring empty segments, ends where going up from the resolved folders does |
| `PathPairs.LevelsExactly` | src/common/Path.cc:13-41 | without double slash in the reference only the number of levels it goes up matters |
| `PathNormal.NormalizeKeepsRoute` | src/common/Path.cc:43-74 | normalize keeps where the path leads: levels up, then names down |
| `PathNormal.NormalizeFixedExactly` | src/common/Path.cc:43-74 | it changes no segment exactly when a dot stands only in front and no two dots follow a name |
| `PathNormal.NormalizeEmptyExactly` | src/common/Path.cc:43-74 | no segment is left exactly of a path that leads nowhere and has no dot in front |
| `PathNormal.NormalizeIdempotent` | src/common/Path.cc:43-74 | for all other paths normalising again changes neither segments nor flags |
| `PathNormal.UpAndBack` | src/common/Path.cc:43-74 | a/.. leaves no segment, so a second call steps past the end of an empty list |
| `PathNormal.NormalizeEqualExactly` | src/common/Path.cc:43-74 | equal results exactly for paths that lead to the same place and agree on the dot in front |
| `PathNormal.NormalizeKeepsKind` | src/common/Path.cc:43-74 | a path names a directory after normalize exactly when it did before |
| `UrlPath.Path.Assign` | src/common/Path.cc:133-177 | the segments are the non-empty pieces between slashes, the flags the slashes at the ends |
| `UrlPath.Path.Size` | src/common/Path.cc:76-99 | the length of the string that get gives |
| `UrlPath.Path.Get` | src/common/Path.cc:101-131 | the string of the path; the double-slash repair at the end never applies |
| `UrlPath.Path.Merge` | src/common/Path.cc:13-41 | the path becomes the merge of both, and stays valid |
| `UrlPath.Path.Normalize` | src/common/Path.cc:43-74 | false with nothing changed for an empty list, where the code steps past its end; else the loop ends, and leaves the one spelling of the route, with the end flag set exactly when the last segment went away |

## Left out

- Hosts.NetworkHostIs: takes the escapes of a valid host to decode, as the host expressions of `Url::valid_host` demand; the expressions themselves are not modelled.
- curl, libevent, sockets, MongoDB, logging, timers and signals: foreign calls.
- `Robots` and its grammar: the contents of robots.txt are a parameter.
- `Url::assign`, `authority`, `valid_host` and `merge_ref`: driven by regular expressions; they would add a model of the expressions rather than properties.
- `Url::unescape` with a mask and `Url::unescape_not`: the same loop as `unescape_safe` with another test.
- `Path::updir` and the depth limit of `assign`: the first is defined only for paths with enough segments, the second never applies to a real list.
- UTF-8 cursor helpers and the stemmers of other languages: not used by the single-byte Porter stemmer; the latter have its shape with larger tables.
- `bighash`, the HTML lexer, `Case_folder`, `Unicode_wrap`, `gzstream`: wrappers over system and library calls.
- Allocation failure in the Snowball runtime, and with it the negative codes it causes.
- `Url_classifier::q_len`, `q_len_top` and the dump operator: reads that would only add easy members.
- UrlPath.Path.Merge: does not model merging a relative path with itself, where the code iterates over the list it changes.
- Crawler.GlobalInfo.Accept: takes the accepted url as given; reading it from a connection is modelled by InputLines.Connection.
