# Nine-level lesson downloader — a Dafny model

This project models the pure core of the nine-level (九階) lesson downloader.
The downloader fetches indigenous-language lessons from the klokah lesson
service and flattens each one into sentence records. The model covers two parts.

1. **Request space** (`ninelevel/core/urldialector.py`):
   - the `NineLevelDialect` table of 42 dialect names and their service ids;
   - `URLCreator`, which builds the 90 lesson URLs of a dialect (levels 1..9, classes 1..10, class in the outer loop);
   - `URLDialector`, which reads level and class back out of each URL and selects all descriptors, one level's, or a single one.
2. **Record cleaner** (`ninelevel/core/data_downloader.py`):
   - `NineLevelDataCleaner`, which joins a sentence's `ab` words and removes whitespace before punctuation;
   - `extract_data` and `clean_data`;
   - the step of `download_content` that assembles a lesson from a request descriptor and the fetched JSON.

All of this code is pure, so the model is datatypes, functions and lemmas.
Python exceptions become `Result` values: `KeyError(key)` for a missing
dictionary key or dialect name, and `IndexError` for an empty `re.findall` list.
Python's `str()` of an integer is written out (`Decimal.IntToString`, without CPython's digit-count limit). So is
the regular-expression work:
- the lookbehind digit capture (`UrlScan`);
- the whitespace-before-mark substitution (`Text`).

The two optional filters of `URLDialector` are modelled as the values Python may hold: `None`, an `int`
or a `str` (`UrlDialector.Arg`). `generate` is modelled as written. Its second
test repeats `isinstance(self.level_id, int)` (`urldialector.py:264`). So an
`int` level with any class value other than `None` reaches
`find_particular_level_and_class`. A class of `"3"` then works as well as `3`.
A level given as a `str` returns all 90 descriptors whatever the class.

Behaviour of the code that a reader might not expect:
- A level-and-class search that matches nothing returns `None` (`One(None)`).
- A level filter outside 1..9 returns an empty list.
- The cleaner removes any whitespace character that `\s` matches before a mark, tabs and other Unicode spaces included.
- Missing JSON keys raise `KeyError`.
- `clean_data` reads `title`, `titleCh` and `sentence` eagerly. The per-sentence `extract_data` calls run only when `download_content` calls `list(...)`. So, were lines 181-190 of `data_downloader.py` reached, an error in a sentence would surface in the assembly step (`DataDownloader.AssembleLesson`).

Modules: `Wrappers`, `Exceptions`, `Decimal`, `Dialects`, `UrlCreator`,
`UrlScan`, `UrlDialector`, `Text`, `DataCleaner`, `DataDownloader`.

## Model

| member | source | states |
|---|---|---|
| Dialects.Names | ninelevel/core/urldialector.py:33-39 | `get_info`: the member names in declaration order; specified by `LookupFails` and `InfoDictAgrees` |
| Dialects.InfoDict | ninelevel/core/urldialector.py:24-30 | `get_info_dict`: each member name mapped to its value; specified by `DictOfKeys`, `DictOfValues` and `InfoDictAgrees` |
| Dialects.TableWellFormed | ninelevel/core/urldialector.py:42-84 | the dialect table has 42 members with pairwise distinct names and pairwise distinct ids, every id in 1..44 |
| Dialects.LookupCorrect | ninelevel/core/urldialector.py:96 | `NineLevelDialect[name].value` succeeds with `id` exactly when `(name, id)` is a member of the table |
| Dialects.LookupFails | ninelevel/core/urldialector.py:96 | the lookup fails exactly for the names `get_info` does not list |
| Dialects.Lookup | ninelevel/core/urldialector.py:96 | a failed lookup raises `KeyError` carrying the name |
| Dialects.LookupFrom | ninelevel/core/urldialector.py:96 | a search of a table finds a value only when some entry carries the name, and the value found is that entry's |
| Dialects.LookupFromExact | ninelevel/core/urldialector.py:96 | in a table without repeated names, the search yields `id` exactly when `(name, id)` is an entry, and nothing exactly when no entry carries the name |
| Dialects.DictOfKeys | ninelevel/core/urldialector.py:30 | the dictionary comprehension has exactly the table's names as keys |
| Dialects.DictOfValues | ninelevel/core/urldialector.py:30 | over a table without repeated names, the dictionary maps each name to its own entry's value |
| Dialects.DictAgreesWithLookup | ninelevel/core/urldialector.py:30 | over a table without repeated names, a name is a key of the dictionary exactly when the search finds it, and then both give the same value |
| Dialects.InfoDictAgrees | ninelevel/core/urldialector.py:24-39 | `get_info_dict` has exactly the names of `get_info` as keys and agrees with the enum lookup on every one |
| Decimal.NatToString | ninelevel/core/urldialector.py:104 | the decimal rendering is non-empty, all digits, one digit exactly for numbers below 10, and has no leading zero |
| Decimal.IntToString | ninelevel/core/urldialector.py:104 | `str(i)` starts with `-` exactly for negative numbers and is otherwise digits |
| Decimal.ParseNatToString | ninelevel/core/urldialector.py:104 | reading the digits of a rendered number gives back that number |
| Decimal.NatToStringInjective | ninelevel/core/urldialector.py:104 | two natural numbers print the same exactly when they are equal |
| Decimal.IntToStringInjective | ninelevel/core/urldialector.py:248-250 | two integers print the same exactly when they are equal, so comparing `str(level_id)` compares the numbers |
| UrlCreator.NewCreator | ninelevel/core/urldialector.py:95-96 | building a `URLCreator` succeeds exactly for table names, with the table's id; otherwise `KeyError(name)` |
| UrlCreator.MergeWithLevelIds | ninelevel/core/urldialector.py:98-104 | `merge_with_level_ids`: the lesson URL up to the level parameter; specified with the class appended by `CreateLayout` |
| UrlCreator.MergeWithClassIds | ninelevel/core/urldialector.py:106-118 | `merge_with_class_ids`: specified by `MergeWithClassIdsLength` and `MergeWithClassIdsAt` |
| UrlCreator.Create | ninelevel/core/urldialector.py:120-134 | `create`: specified by `CreateLayout`, `CreateAt`, `CreateLayoutAll` and `UrlDialector.CreateNoDuplicates` |
| UrlCreator.MergeWithClassIdsLength | ninelevel/core/urldialector.py:114-118 | the two-level comprehension yields one URL per pair of class id and level URL |
| UrlCreator.MergeWithClassIdsAt | ninelevel/core/urldialector.py:114-118 | the `k`-th class id and the `j`-th level URL meet in row `k`, column `j`, as that URL with `&c=` and the class id appended: class in the outer loop, level in the inner |
| UrlCreator.RowStartProduct | ninelevel/core/urldialector.py:114-118 | with `len(urls)` URLs per class, row `k` starts at index `k * len(urls)` |
| UrlCreator.CreateLayout | ninelevel/core/urldialector.py:120-134 | `create` yields 90 URLs; the URL of level `l` and class `c` is `BASE_URL + "getTextNew.php?d=" + id + "&l=" + l + "&c=" + c` at index `(c-1)*9 + (l-1)` |
| UrlCreator.CreateAt | ninelevel/core/urldialector.py:131-134 | index `i` of `create` holds the URL of level `i % 9 + 1` and class `i / 9 + 1` |
| UrlCreator.CreateLayoutAll | ninelevel/core/urldialector.py:131-134 | the whole list produced by `create`, index by index |
| UrlScan.FirstMarkerEnd | ninelevel/core/urldialector.py:186-187 | the lookbehind's first accepting position, or none when no position accepts |
| UrlScan.DigitRunSpec | ninelevel/core/urldialector.py:186-187 | `\d*` takes the longest prefix of digits: all digits, and the next character (if any) is not a digit |
| UrlScan.FirstDigitsAfter | ninelevel/core/urldialector.py:186-187 | `findall(...)` is empty exactly when the marker occurs nowhere |
| UrlScan.FirstDigitsAfterMarker | ninelevel/core/urldialector.py:186-187 | for a URL `w + marker + d + v` where every `&` in the prefix `w` is followed by a character of `w` other than the marker's letter (so `w` does not end in `&`), `d` is all digits and `v` does not start with a digit, the first match is exactly `d` |
| UrlScan.DigitRunStops | ninelevel/core/urldialector.py:186-187 | the digit run stops at the first non-digit, so a two-digit class such as 10 is read whole |
| UrlDialector.CreateListOfUrls | ninelevel/core/urldialector.py:164-170 | fails exactly for unknown dialects with `KeyError(name)`; otherwise 90 URLs, index `i` for level `i % 9 + 1` and class `i / 9 + 1` |
| UrlDialector.GenerateRequestInfo | ninelevel/core/urldialector.py:172-194 | `IndexError` exactly when `&l=` or `&c=` occurs nowhere in the URL; otherwise the ids are the digit runs `findall` yields first after each marker, and the descriptor carries the dialect name and the URL unchanged |
| UrlDialector.GenerateRequestInfoRoundTrip | ninelevel/core/urldialector.py:186-194 | reading back the URL of level `l` and class `c` gives `level_id == str(l)`, `class_id == str(c)`, the dialect name and the URL unchanged |
| UrlDialector.GenerateRequestInfos | ninelevel/core/urldialector.py:261 | the mapped list succeeds exactly when every URL reads back, one descriptor per URL in order |
| UrlDialector.ReadBackAll | ninelevel/core/urldialector.py:260-261 | reading back the 90 enumerated URLs yields the 90 descriptors in enumeration order |
| UrlDialector.CreateNoDuplicates | ninelevel/core/urldialector.py:131-134 | two positions of `create` hold the same URL exactly when they are the same position |
| UrlDialector.FindParticularLevel | ninelevel/core/urldialector.py:196-226 | `find_particular_level`: specified by `FindParticularLevelMembers`, `FindParticularLevelAppend`, `FindParticularLevelNone`, `FindParticularLevelSingle` and `FindParticularLevelOnAll` |
| UrlDialector.FindParticularLevelMembers | ninelevel/core/urldialector.py:222-226 | the filter keeps an entry exactly when it is in the input and its `level_id` equals `str(level_id)`, and never returns more entries than it was given |
| UrlDialector.FindParticularLevelAppend | ninelevel/core/urldialector.py:222-226 | the filter distributes over concatenation, so it keeps input order |
| UrlDialector.FindParticularLevelNone | ninelevel/core/urldialector.py:222-226 | nothing is kept when no entry has the level |
| UrlDialector.FindParticularLevelSingle | ninelevel/core/urldialector.py:222-226 | only the one entry with the level is kept |
| UrlDialector.FindParticularLevelOnAll | ninelevel/core/urldialector.py:222-226 | on all 90 descriptors, a level in 1..9 yields that level's 10 descriptors, classes 1..10 in order; any other level yields none |
| UrlDialector.PyStr | ninelevel/core/urldialector.py:248-250 | `str(class_id)` for the class values modelled: `"None"`, `str(int)` or the string itself; used by `MatchesLevelAndClass` |
| UrlDialector.FindParticularLevelAndClass | ninelevel/core/urldialector.py:228-251 | `find_particular_level_and_class`: specified by `FindParticularLevelAndClassNone`, `FindParticularLevelAndClassFirst`, `FindParticularLevelAndClassOnAll` and `FindParticularLevelAndClassMissing` |
| UrlDialector.FindParticularLevelAndClassNone | ninelevel/core/urldialector.py:247-251 | the loop falls off the end with `None` exactly when no entry matches both `str(level_id)` and `str(class_id)` |
| UrlDialector.FindParticularLevelAndClassFirst | ninelevel/core/urldialector.py:247-251 | a returned entry is the one at the first position matching both ids |
| UrlDialector.FindParticularLevelAndClassOnAll | ninelevel/core/urldialector.py:247-251 | on all 90 descriptors, a level in 1..9 and a class value printing as a class in 1..10 select the one descriptor of that lesson |
| UrlDialector.FindParticularLevelAndClassMissing | ninelevel/core/urldialector.py:247-251 | on all 90 descriptors, any other level or class value selects `None` |
| UrlDialector.Generate | ninelevel/core/urldialector.py:253-268 | `generate` fails exactly for unknown dialects, with `KeyError(name)` |
| UrlDialector.GenerateReadsAll | ninelevel/core/urldialector.py:260-261 | for a dialect of the table with its id, the lookup succeeds and `generate` works on all 90 descriptors in enumeration order |
| UrlDialector.GenerateLevelOnly | ninelevel/core/urldialector.py:262-263 | an `int` level without a class selects the level's 10 descriptors in class order, or none for a level outside 1..9 |
| UrlDialector.GenerateLevelAndClass | ninelevel/core/urldialector.py:264-267 | an `int` level with any non-`None` class value selects the single matching descriptor |
| UrlDialector.GenerateLevelAndClassMissing | ninelevel/core/urldialector.py:264-267 | that branch selects `None` when nothing matches |
| UrlDialector.GenerateWithoutIntLevel | ninelevel/core/urldialector.py:262-268 | a level that is not an `int` selects all 90 descriptors, whatever the class |
| UrlDialector.ExampleDialect | ninelevel/core/urldialector.py:54 | 霧台魯凱語 has id 14, the dialect of the docstring examples |
| UrlDialector.CreateExample | ninelevel/core/urldialector.py:124-128 | the second URL of `create` for dialect 14 is `...getTextNew.php?d=14&l=2&c=1` |
| UrlDialector.GenerateRequestInfoExample | ninelevel/core/urldialector.py:179-184 | the docstring example: level `"1"` and class `"1"` are read from `...d=14&l=1&c=1` |
| Text.Join | ninelevel/core/data_downloader.py:93 | `" ".join` of nothing is empty, and a join starts with the first word's first character |
| Text.IsSpace | ninelevel/core/data_downloader.py:94 | `\s` on a `str` pattern: the characters Python's `str.isspace` accepts |
| Text.DropSpaceBeforeMarks | ninelevel/core/data_downloader.py:94 | the `re.sub` call; specified by `DropSpaceBeforeMarksSpec`, `NoSpaceBeforeMarkAfterDrop` and `DropNothing` |
| Text.KeptFromBounds | ninelevel/core/data_downloader.py:94 | every position the substitution keeps lies in the string, and the pattern `\s(?=[,?.:;!])` does not match there |
| Text.KeptFromIncreasing | ninelevel/core/data_downloader.py:94 | the kept positions are in increasing order |
| Text.KeptFromExact | ninelevel/core/data_downloader.py:94 | a position is kept exactly when the pattern does not match there |
| Text.SubFromKept | ninelevel/core/data_downloader.py:94 | the substitution yields the characters at the kept positions, in order, and nothing else |
| Text.DropSpaceBeforeMarksSpec | ninelevel/core/data_downloader.py:94 | `re.sub` removes exactly the whitespace characters followed by one of `, ? . : ; !` in the original string, and keeps every other character in order |
| Text.NoSpaceBeforeMarkAfterDrop | ninelevel/core/data_downloader.py:94 | when no two whitespace characters are adjacent, the result has no whitespace before a mark |
| Text.DropNothing | ninelevel/core/data_downloader.py:94 | a string without whitespace before a mark is left unchanged |
| Text.JoinNoDoubleSpace | ninelevel/core/data_downloader.py:93 | joining non-empty words that contain no whitespace never puts two whitespace characters side by side |
| DataCleaner.CollectAb | ninelevel/core/data_downloader.py:90-92 | the comprehension succeeds exactly when every word has `ab`, giving the `ab` values in order; otherwise `KeyError("ab")` |
| DataCleaner.ConcatenateAbValue | ninelevel/core/data_downloader.py:81-94 | `concatenate_ab_value` fails with `KeyError("ab")` exactly when some word lacks `ab`, and an empty word list yields `""`; its successful value, for every word list, is given by `DataCleaner.ConcatenateJoin` |
| DataCleaner.ConcatenateJoin | ninelevel/core/data_downloader.py:90-94 | for every word list whose words all carry `ab`, whatever those values hold, the result is the `ab` values in order, joined by single spaces, with every whitespace character that stands before one of `, ? . : ; !` removed |
| DataCleaner.ConcatenateWords | ninelevel/core/data_downloader.py:90-94 | for non-empty `ab` values without whitespace, the result is the join minus the spaces before marks, and has no whitespace before any mark |
| DataCleaner.ConcatenateExample | ninelevel/core/data_downloader.py:90-94 | `Kapah`, `kisu`, `?` yield `"Kapah kisu?"` |
| DataCleaner.ExtractData | ninelevel/core/data_downloader.py:109-119 | a record exists exactly when `order`, `chinese`, `word` and every `ab` are present; it copies `order` and `chinese` and sets `dialect` to `concatenate_ab_value(word)`; otherwise the first missing key in that order is raised |
| DataCleaner.CleanData | ninelevel/core/data_downloader.py:127-129 | succeeds exactly when `title`, `titleCh` and `sentence` are present, with title `title + " " + titleCh` and the sentences still pending; otherwise the first missing key in that order is raised |
| DataCleaner.ExtractAll | ninelevel/core/data_downloader.py:187 | `list(map(self.extract_data, ...))` forced by `download_content`; specified by `ExtractAllSpec` |
| DataCleaner.ExtractAllSpec | ninelevel/core/data_downloader.py:129 | `list(map(extract_data, ...))` yields one record per sentence in input order exactly when every sentence extracts; otherwise it raises the first failing sentence's error |
| DataCleaner.CleanExample | ninelevel/core/data_downloader.py:121-129 | a one-sentence lesson titled `A`/`B` cleans to title `"A B"` and the single record `("1", "Kapah kisu?", "你好")` |
| DataDownloader.AssembleLesson | ninelevel/core/data_downloader.py:181-190 | the lesson exists exactly when `clean_data` succeeds and every sentence extracts; it takes `level_id`/`class_id` from the descriptor, its title from `clean_data`, and one record per sentence in order; a `clean_data` failure is raised as is; otherwise a failure is the error of the first sentence that does not extract, all earlier ones extracting |
| DataDownloader.LessonOfDescriptor | ninelevel/core/data_downloader.py:183-188 | a well-formed lesson fetched for the `i`-th enumerated descriptor carries level `str(i % 9 + 1)` and class `str(i // 9 + 1)` and one record per sentence |

## Left out

- `download_data` (`data_downloader.py:16-51`) is not modelled. It does network I/O through aiohttp and retries without bound on JSON decode errors. The fetched JSON is an argument of `DataDownloader.AssembleLesson` instead.
- `DataDownloader.AssembleLesson` models what `data_downloader.py:181-190` would compute from a fetched payload. As written, those lines are never reached: `download_content` is a coroutine awaited from `download`, which runs under `asyncio.run` (`ninelevel.py:74`), and line 180 calls `asyncio.run(download_data(url))` inside that running event loop, which raises `RuntimeError` (absent event-loop patching such as `nest_asyncio`). The model does not include that `RuntimeError`.
- `NineLevelDataDownloader.download` and the `asyncio.run`/`asyncio.gather` fan-out (`data_downloader.py:179-180,192-203`) are not modelled; their point is concurrency and I/O. `__post_init__` (`data_downloader.py:152-153`) only stores the result of `generate`, which `UrlDialector.Generate` models. What `download` does with a `None` selection is not modelled either: it would try to iterate that `None`.
- `ninelevel/ninelevel.py` (file writing, CSV export, orchestration) is not part of this model.
- `urljoin` is modelled as concatenation. This is exact here, because `BASE_URL` ends in `/` and the relative part has no scheme and no leading slash.
- `\d` in `generate_request_info` is modelled as the ASCII digits. Python also matches other Unicode decimal digits, but `create` only ever writes ASCII ones.
- Decimal.IntToString: does not model the limit on the length of `str()` of an integer (`sys.set_int_max_str_digits`, 4300 digits by default on current CPython), past which `str(level_id)` or `str(class_id)` in the filters raises `ValueError`; it is a runtime guard that no level or class in 1..10 comes near, so the model returns `Many([])` or `One(None)` for such a filter instead.
- `Flag` semantics are not modelled: bitwise composition of members, and aliasing of equal values. The table has no equal values, and the code only looks names up and lists them.
- Filter values other than `None`, `int` and `str` are not modelled. This includes `bool`, which `isinstance(..., int)` accepts and which prints as `True`/`False`.
- JSON values are modelled as strings where the code reads them. Other JSON values are not modelled: `extract_data` copies `order` and `chinese` into the record unchanged whatever their type, the f-string of `clean_data` renders `title` and `titleCh` through `str()`, and a non-string `ab` makes `join` raise `TypeError`. Keys the code never reads, such as a word's `ch`, are dropped from the datatypes.
- `NineLevelDataCleanerInfo`, `NineLevelDataInfo` and `URLDialectorInfo` are plain datatypes. `asdict` is not modelled beyond that.
