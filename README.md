# File organiser: company table, classification and audit records

`organize_files_comprehensive` (main.py) sorts files from several source
folders into per-company folders under a target root. It works in three
phases:

- It derives a company alias from the name of each folder directly under the
  target root. It strips a numeric enumeration prefix such as `2.` or `4、`,
  cuts everything from the "original name" marker `原：` or `原:` on, and
  trims whitespace. This gives the table `company_map` and its keys,
  longest first (`sorted_keys`).
- It walks the source roots. The per-file body is evidently meant to run
  for every file whose suffix is allowed: match the file name against the
  keys (the first key that occurs in it wins), then move the file into the
  company folder, or into the first subfolder whose name holds a search
  keyword. As written, that body sits after the file loop, so it runs once
  per existing source root, for the last entry the root lists, whether or
  not that entry passes the filter (see "## Findings").
- It keeps one audit record per run of that body and reports how many moves
  succeeded and how many were skipped or failed.

The Dafny model has these modules:

| module | file | what it holds |
|---|---|---|
| `Outcomes` | text.dfy | `Option` and `Result` |
| `Text` | text.dfy | character classes of the prefix pattern, Python's whitespace set, substring search (`in`, `find`), ASCII `lower`/`upper` |
| `Fs` | fs.dfy | directory snapshots (`Entry`), paths as component sequences, `Path.suffix` |
| `Normalizer` | normalizer.dfy | the alias normaliser of main.py:50-62 |
| `AliasTable` | alias_table.dfy | `company_map` (with Python dict key order) built by a loop, and `sorted_keys` |
| `Classifier` | classifier.dfy | the first-match key search of main.py:101-104 |
| `Resolver` | resolver.dfy | the subfolder search and `final_dest_dir` of main.py:111-124 |
| `Records` | records.dfy | the per-file record (as a function and as the statement-by-statement method), the extension filter, the summary counts |
| `Run` | run.dfy | the run over the source roots, as written and as evidently intended, and how the two compare |
| `Inbox` | inbox.dfy | both runs over one source root listing "<a>.pdf", "<b>.pdf" and "<n>.txt" with only ".pdf" allowed |

The source's per-file body (main.py:94-154) sits at the level of
`for source_root`, not inside `for file_path in source_path.iterdir()`.
The model follows the code as written (`Run.Organize`, `Run.RunAsWritten`).
The loop the authors evidently meant is modelled beside it
(`Run.OrganizeIntended`, `Run.RunIntended`); see "## Findings".

The run lemmas hold for any per-file step (`Run.Processor`). The run
methods use the concrete step `Run.FileProcessor(Run.ContextOf(cfg))`.

## Model

| member | source | states |
|---|---|---|
| Normalizer.StripNumericPrefix | main.py:50-55 | the result is a suffix of the folder name. A name that does not start with a digit is unchanged. Otherwise the removed prefix holds only characters that are neither Latin letters nor CJK ideographs, and what is left is empty or starts with a Latin letter or a CJK ideograph |
| Normalizer.CutAt | main.py:58-60 | `s.split(marker)[0]`: a prefix of `s` that does not contain the marker. When the marker occurs, the cut is exactly at its first occurrence; otherwise `s` is returned whole |
| Normalizer.CutMarkers | main.py:56-60 | the result is the part of its input before the cut position: the first `原：` when there is one, else the first `原:` when there is one, else the end (the input is kept whole). It never holds `原：`, and holds no `原:` when the input held no `原：` |
| Normalizer.Strip | main.py:62 | `str.strip()`: the result is the input less a whitespace run at each end; its first and last characters are not whitespace |
| Normalizer.NormalizeSpec | main.py:50-62 | an alias is the stripped part of the step-1 output before its cut position (the first `原：`, else the first `原:`, else the end). It never holds `原：`, holds no `原:` when the step-1 output held no `原：`, and has no surrounding whitespace |
| Normalizer.CutPositionUnique | main.py:56-60 | the cut position of a string is unique, so the two contracts above determine step 2's result and the alias |
| Normalizer.CleanName | main.py:55-62 | the step-by-step reassignment of `clean_name` (prefix removal, the `if`/`elif` on the two markers, `strip`) computes exactly `Normalize` |
| Normalizer.StripNumericPrefixOf | main.py:50-55 | a name made of one or more digits, then characters that are neither Latin letters nor CJK ideographs, then a rest that is empty or starts with a letter or ideograph, loses exactly the digits and that separator |
| Normalizer.NormalizePrefixedAlias | main.py:50-62 | a folder name "<digits><separator><company>原：<original name>", with a company name that starts with a letter or ideograph, ends in non-whitespace and holds no `原`, normalises to the company name alone (as "2.ACME原：FooCo" gives "ACME") |
| Normalizer.NormalizePrefixedName | main.py:50-62 | the same name without a marker normalises to everything after the prefix (as "4、BetaCorp" gives "BetaCorp") |
| Normalizer.NormalizePlainName | main.py:50-62 | a name that does not start with a digit and has no `原` and no surrounding whitespace is its own alias |
| Normalizer.DigitsOnlyNormalizeEmpty | main.py:50-55 | a name made only of digits (as "123") normalises to the empty alias, which main.py:64 then skips |
| Normalizer.NormalizeAsciiMarker | main.py:59-60 | a name "<company>原:<original name>" with no `原：`, whose company part starts with a letter or ideograph, ends in non-whitespace and holds no `原`, normalises to the company name whatever the original name holds besides `原：` (as "ACME原:FooCo" and "ACME原:原野贸易" give "ACME") |
| Normalizer.FullMarkerTakesPrecedence | main.py:57-60 | the full-width marker is tried first: "<company>原:<note>原：<original>" is cut at the full-width marker, keeping the earlier ASCII one (as "A原:B原：C" gives "A原:B") |
| AliasTable.Put | main.py:65 | `company_map[key] = folder` updates the map at `key` and keeps the key order a duplicate-free list of exactly the map's keys |
| AliasTable.TableBy | main.py:52-65 | the table built from any listing keeps the key order a duplicate-free list of exactly the map's keys |
| AliasTable.BuildCompanyMap | main.py:49-65 | the loop, with its step-by-step `clean_name` reassignment, builds exactly `TableOf(listing)` |
| AliasTable.TableKeysFromListing | main.py:52-65 | every key is non-empty and is the key of some listed entry |
| AliasTable.LastFolderWins | main.py:64-65 | every non-empty key is in the table, mapped to the last listed entry with that key: on a collision the later folder wins |
| AliasTable.InsertionOrderKept | main.py:65 | later insertions never move a key: the key order after any prefix of the listing is a prefix of the final key order |
| AliasTable.CompanyKeysAreFolderAliases | main.py:52-65 | every company key is non-empty and is the normalised name of a listed directory; non-directory entries contribute no key |
| AliasTable.SortByLengthCorrect | main.py:67 | the sort by length, descending, yields non-increasing lengths and a permutation of its input, and keeps the relative order of equal-length keys (stability) |
| AliasTable.SortedKeysCorrect | main.py:67 | `sorted_keys` holds every key of `company_map` once and no other string, longest first, with equal lengths in dict insertion order |
| Classifier.Classify | main.py:101-104 | there is no match exactly when no key occurs in the file name; otherwise the match is a key that occurs and no earlier key occurs |
| Classifier.ClassifyFirstMatch | main.py:101-104 | the `break` at the first occurring key yields that key |
| Classifier.LongestKeyWins | main.py:101-104 | with keys in `sorted_keys` order, no key strictly longer than the matched one occurs in the file name |
| Classifier.LongestKeyExample | main.py:52-104 | a target root listing a folder and then one with a longer plain name (as "Alpha", then "AlphaBeta") gives `sorted_keys` with the longer key first, and a file whose name holds the longer key (as "AlphaBeta_invoice.pdf") is filed under it |
| AliasTable.TwoEntryOrder | main.py:52-65 | two folders with distinct non-empty aliases are keyed in listing order |
| AliasTable.SortTwoByLength | main.py:67 | two keys, the shorter first, are swapped by the sort by length, descending |
| Resolver.FindSubfolder | main.py:113-116 | no subfolder is found exactly when no directory entry's name holds the keyword; otherwise the found one is the first entry that is a directory and holds it |
| Resolver.FindSubfolderFirst | main.py:113-116 | the `break` at the first matching directory yields that directory |
| Resolver.DestinationSpec | main.py:118-124 | the destination is the company folder exactly when no subdirectory name holds the keyword. Otherwise it is the company folder's path extended by the first such subdirectory, an immediate child; nothing is created |
| Fs.LastDot | main.py:91 | the index of the last '.', or none when the name has no dot |
| Fs.SuffixOfExtension | main.py:91 | the suffix of "<stem>.<ext>", for a non-empty stem and an extension without dots, is ".<ext>" |
| Fs.Suffix | main.py:91 | `Path.suffix`: a non-empty suffix is a proper tail of the name, starts with its only '.', and is at least two characters long. The suffix is empty only when no dot stands strictly inside the name with none after it |
| Records.PdfQualifies | main.py:91 | with only ".pdf" allowed, a file "<stem>.pdf" with a non-empty stem passes the filter, also when the stem holds dots ("a.b.pdf") |
| Records.TxtRejected | main.py:91 | with only ".pdf" allowed, a file "<stem>.txt" is skipped by the filter |
| Records.ProcessFileSpec | main.py:94-154 | the record carries the file name and upper-cased suffix. It is skipped exactly when no key occurs, and then holds "无", "N/A" and the fixed remark. A matched record holds the first matching key and `str(final_dest_dir)` whether or not the move succeeds. It is a success exactly when the `try` body of main.py:131-136 (the move and the success print) completes, with remark "已移动至: " and the company folder's name; otherwise it is a failure with "移动出错: " and the error text |
| Records.RecordFile | main.py:94-154 | the statement-by-statement body, with its two `for … break` searches and the reassignment of `status`, `remark` and `dest_path_str`, makes exactly `ProcessFile`'s record |
| Records.Summarize | main.py:164-165 | the success count is the number of records whose status is 成功 (the multiplicity of Success in the status column), the other count is the number of all other records, and the latter is zero exactly when every record is a success |
| Records.CountSuccessIsMultiplicity | main.py:164 | `len(df[df['执行状态']=='成功'])` equals the number of times Success occurs in the status column |
| Records.CountsAddUp | main.py:164-165 | the two status counts partition the records |
| Run.ContextOf | main.py:67 | every key of `sorted_keys` is a key of `company_map`, so `company_map[matched_key]` (main.py:107) is always defined |
| Run.Organize | main.py:77-154 | the nested loops as written end in UnboundLocalError (a subclass of NameError) exactly when `RunAsWritten` does, and otherwise leave `RunAsWritten`'s records and their counts |
| Run.OneRecordPerRoot | main.py:77-154 | as written, a completed run holds exactly one record per existing source root |
| Run.NameErrorIff | main.py:89-94 | as written, the run raises UnboundLocalError (a subclass of NameError) exactly when the first existing source root lists nothing; `file_path` is still unbound after it exactly when no root exists |
| Run.RecordIsLastEntry | main.py:89-94 | as written, the record of an existing non-empty root is the record of the last entry it lists, whether or not that entry passes the filter of main.py:91 |
| Run.FilePathIsLastFile | main.py:89-94 | as written, after any roots `file_path` is bound to the last entry of the last existing root that lists anything |
| Run.EmptyRootReusesLastFile | main.py:89-154 | as written, an existing root that lists nothing gets the record, made again, of the last entry of the last earlier existing root that listed anything |
| Run.OrganizeIntended | main.py:77-154 | the nested loops with the per-file body inside the file loop leave exactly `RunIntended`'s records and their counts |
| Run.ListingRecordsFor | main.py:89-154 | handling a listing appends the record of each entry that passes the filter, in listing order, numbered on from the records so far |
| Run.OneRecordPerFile | main.py:77-154 | the intended run's records are the records of the files that pass the filter in every existing root, one each, in order |
| Inbox.AsWrittenDropsFiles | main.py:89-94 | as written, a root listing "<a>.pdf", "<b>.pdf" and "<n>.txt" (as "a.pdf", "b.pdf", "notes.txt") yields the single record of the text file, numbered 0, whatever extensions are allowed |
| Inbox.IntendedKeepsFiles | main.py:89-154 | the intended run over the same root, with only ".pdf" allowed, records the two PDF files as records 0 and 1, in listing order, and not the text file |
| Inbox.TwoQualifyingThenRejected | main.py:89-154 | handling a listing of two files that pass the filter and one that does not makes the records of the first two, numbered 0 and 1 |
| Run.AgreeOnSingleFileRoots | main.py:89-154 | when every existing root lists exactly one file and it passes the filter, the run as written completes and makes the same records as the intended run |

## Left out

- Reading the configuration file and its JSON (main.py:10-20, 185-206): file input and a library parse. The run takes its arguments as a `Run.Config` value.
- Logging and the error log: their records are output only. But `logging.FileHandler` at main.py:29 opens the log file when the function starts, and if it cannot (for instance when the prefix names a missing directory) it raises before the table is built; the model's run always gets past that line.
- `print` can raise (for instance UnicodeEncodeError when stdout cannot encode "✅"). The one at main.py:136 sits inside the `try` after `shutil.move`, so a file that was moved is then recorded as 失败; the model folds this into `Records.MoveOracle`, whose answer is how the whole `try` body of main.py:131-136 ended, not whether the file moved. The prints at main.py:74, 82, 86 and the one in the `except` handler at main.py:141 are outside any `try` of the function; an exception there aborts the run with no export, which the model does not represent.
- The Excel export (main.py:158-163, 176-178): a foreign library. Only the two counts are kept, computed over the record sequence. The counts exist in the model exactly when there are records, as at main.py:157; a failing export, after which the counts are not reported, is not modelled.
- The time column of a record and the time-stamped file names: clock readings.
- The `try` body of main.py:131-136 (`shutil.move` and the success `print`) is an oracle (`Records.MoveOracle`). It is given the ordinal of the record being made, the source path and the destination path, and it answers that the body ran to its end or gives the exception's text. The move's effect on the file system is not modelled.
- `iterdir` failures: a missing or unlistable target root raises at main.py:52 before any source root is read, and a company folder that cannot be listed raises at main.py:113, outside the `try` of main.py:128-140, aborting the run part-way with no export. The model's listings always succeed.
- `iterdir`, `is_dir` and `exists` read a fixed snapshot (`Fs.Entry`). Moves made during the run do not change later listings. A source root that exists but is not a directory (iterdir would raise) is not modelled; `present` means an existing directory.
- Text.IsDigit: covers the ASCII digits only, while Python's `\d` also matches other Unicode decimal digits. Those digits are still neither Latin nor CJK, so only a name starting with such a digit is handled differently.
- Text.Lower: lowers ASCII letters only, while `str.lower()` is Unicode-aware; the extension filter and `Records.ProcessFileSpec`'s file type (via `Text.Upper`) inherit this.
- File names that are not Unicode text: on POSIX, undecodable bytes reach `folder.name` and `file_path.name` as lone surrogates (surrogateescape), which a Dafny `char` cannot hold; such names are not represented.
- Fs.PathString: joins components with "/", the POSIX form of `str(Path)`; a Windows separator is not modelled.
- Extensions are compared with their leading dot, as the code compares `Path.suffix`: an allowed extension configured without its dot ("pdf") never matches any file.
- No folder is ever created: when no subfolder of the company folder holds the keyword, the file goes into the company folder itself (main.py:118-124).

## Findings

| source | as written | input that shows it | evidently intended | confidence | as-written member | corrected member |
|---|---|---|---|---|---|---|
| main.py:89-94 | lines 94-154 sit after `for file_path in source_path.iterdir()`, not inside it. Each existing root yields one record, for its last listed entry, even when the filter rejects it. An empty root reuses the previous root's file (`Run.EmptyRootReusesLastFile`) or raises UnboundLocalError | one source root listing "a.pdf", "b.pdf", "notes.txt", with ".pdf" allowed: only "notes.txt" is recorded (and, if a key matches it, moved) | one record per file that passes the filter, in listing order | high, not executed | Inbox.AsWrittenDropsFiles | Run.OneRecordPerFile |
