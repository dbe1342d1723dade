# Ticket mirror reconciliation, modelled in Dafny

`main.py` keeps a Google Sheet in step with a helpdesk ticketing service.
Each run:

1. fetches the tickets changed from 00:00:00 of the day before the current day to 23:59:59 of the current day;
2. cleans the markup out of every value and reformats the three date fields;
3. renames the source fields to the thirty report titles and keeps only those columns;
4. reads the rows already in the sheet and pads each one to thirty cells;
5. upserts the new tickets into them by ticket number (`N.º`), with the new batch winning;
6. keeps only the tickets of the allowed divisions that are not closed;
7. drops duplicate ticket numbers, keeping the last;
8. sorts by opening date-time;
9. rewrites the whole sheet, header first.

When the service returns no tickets, the run writes nothing.

The model follows that pipeline module by module:

| module | file | what it holds |
|---|---|---|
| `Base` | base.dfy | `Option`, `Result`, and `Value` (a fetched cell: text, or anything else) |
| `Schema` | schema.dfy | the thirty titles, the thirty source keys, the positional constants, the date fields, the allowed divisions, the closed statuses, and the `Row` type (exactly thirty cells) |
| `Markup` | markup.dfy | the markup cleaner `limpar_html` and its properties |
| `Normalizer` | normalize.dfy | cleaning a batch, the date-field loop, renaming, and projection onto the report columns |
| `Snapshot` | snapshot.dfy | padding the ragged sheet rows in place, and turning them into a table |
| `Reconcile` | reconcile.dfy | merge, filter, keep-last dedup, and sort, with their properties |
| `Sheet` | sheet.dfy | the values written (header, then rows) and how the sheet service returns them when read |
| `Window` | window.dfy | the two-day query window, from midnight of the previous day to one second before the midnight after the current day |
| `Pipeline` | pipeline.dfy | one whole run, the empty-batch guard, and re-running a run |

The imperative steps are methods, each proved against the function that specifies it:

- `Snapshot.PadRows` pads an array of rows in place, appending one `""` at a time.
- `Normalizer.FormatDates` reassigns the date columns one field after the other.
- `Pipeline.Sync` performs a run with these two methods, and its result is `Pipeline.Run`.

The sort is specified by what every acceptable outcome satisfies: ascending and a permutation. The pandas sort used by the program is not stable. So `Reconcile.ReconciledTable` holds for ANY sorted permutation of the deduplicated rows, not only for the insertion sort the model uses to show that one exists.

## Model

| member | source | states |
|---|---|---|
| Markup.CloseAt | main.py:117 | the non-greedy `<.*?>` match from a `<`: the first `>`, and no line break before it; if there is none, every `>` has a line break before it |
| Markup.ReplaceNbsp | main.py:117 | every no-break space becomes a plain space, and every other character is kept in place |
| Markup.TrimStart | main.py:117 | the result is the suffix after the leading whitespace: every removed character is whitespace, and the result does not start with whitespace |
| Markup.TrimEnd | main.py:117 | the result is the prefix before the trailing whitespace: every removed character is whitespace, and the result does not end with whitespace |
| Markup.Clean | main.py:114-117 | non-text gives `""`; the result holds no no-break space and neither starts nor ends with whitespace |
| Markup.StripKeepsOut | main.py:117 | stripping whitespace introduces no character |
| Markup.NoCloseSurvivesStrip | main.py:117 | a `<` with no closing `>` on its line still has none after the rest of the text is stripped of tags |
| Markup.StripTagsLeavesNoTag | main.py:117 | after tag removal, no `<` is followed by a `>` on the same line |
| Markup.StripTagsFixesNoTag | main.py:117 | tag removal leaves a text with no tag match unchanged |
| Markup.CloseAtShape | main.py:117 | where a tag closes depends only on where the `>` and the line breaks are |
| Markup.CloseAtPrefix | main.py:117 | a text with no tag close has no tag close in any prefix |
| Markup.NoTagSlice | main.py:117 | a slice of a text with no tag match has no tag match |
| Markup.NoTagReplace | main.py:117 | replacing no-break spaces creates no tag match |
| Markup.CleanLeavesNoTag | main.py:114-117 | a cleaned value holds no tag match |
| Markup.CleanIdempotent | main.py:114-117 | cleaning an already cleaned value returns it unchanged |
| Markup.StripTagsPlainPrefix | main.py:117 | a prefix with no `<` passes through tag removal untouched |
| Markup.ReplaceNbspConcat | main.py:117 | no-break-space replacement distributes over concatenation |
| Markup.ReplaceNbspFixes | main.py:117 | text without a no-break space is unchanged by the replacement |
| Markup.BoldTagsRemoved | main.py:117 | for plain words `w` and `v`, with no `<`, `>`, line break or no-break space, `<b>w</b>` followed by a no-break space and `v` loses exactly its two tags |
| Markup.NbspBetweenWords | main.py:117 | the no-break space between two plain words becomes a plain space |
| Markup.StripUnpadded | main.py:117 | trimming returns unchanged a string with no surrounding whitespace |
| Markup.CleanBoldWord | main.py:114-117 | a bold word, a no-break space and a second word clean to the two words joined by a plain space |
| Normalizer.IndexOf | main.py:187 | the first position of a name: it holds the name, and no earlier position does |
| Normalizer.IndexOfAligned | main.py:166-187 | two column lists that match their targets at the same positions have their first matches at the same position |
| Normalizer.CleanBatch | main.py:160 | the batch keeps its columns and its number of records, and each cell is the cleaned value of the record's field, a missing field counting as non-text |
| Normalizer.ApplyToColumn | main.py:164 | reassigning one column keeps every row's length; each cell under the named column goes through the formatter, and every other cell is kept |
| Normalizer.FormatDates | main.py:162-164 | the loop over the three date fields, reassigning the ones present, gives the batch with exactly the date-field cells passed through the formatter |
| Normalizer.Rename | main.py:166-186 | renaming keeps the rows and renames each column name, position by position |
| Normalizer.Missing | main.py:187 | the titles reported missing are exactly the wanted titles absent from the columns |
| Normalizer.Project | main.py:128-187 | the projection succeeds exactly when all thirty titles are columns; when it fails, it names exactly the absent titles, and at least one; when it succeeds, cell j of each row is the row's cell under the first column titled `COLUMNS[j]` |
| Normalizer.RenamedKey | main.py:166-186 | a name that is not already a title is renamed to title j exactly when it is source key j |
| Normalizer.NormalizeComplete | main.py:160-187 | when every source key is a column and no column is already a title, normalizing succeeds with one row per record, and cell j of a row is the cleaned field `SOURCE_KEYS[j]`, passed through the formatter when it is a date field |
| Normalizer.NormalizeShape | main.py:160-187 | under the same conditions, normalizing succeeds with one row per record |
| Normalizer.RenameAligned | main.py:166-187 | renaming moves each present source key to its title at the same position |
| Normalizer.NormalizeCell | main.py:160-187 | one cell of a normalized complete batch is the cleaned, possibly reformatted, source field |
| Normalizer.ProjectCell | main.py:187 | one cell of a successful projection is the cell under the first matching title |
| Normalizer.DatedCell | main.py:162-164 | after date reformatting, a cell is passed through the formatter exactly when its column is a date field |
| Normalizer.NormalizeServiceBatch | main.py:160-187 | a batch whose columns are exactly the service's source fields normalizes with one row per record, and cell j of a row is the cleaned field `SOURCE_KEYS[j]`, passed through the formatter when it is a date field |
| Normalizer.NormalizeIncomplete | main.py:187 | when no column is already named as a report title, a batch lacking source key j fails normalization, and title j is among the names reported missing |
| Snapshot.Padded | main.py:196-198 | a padded row has at least thirty cells, keeps its original cells as a prefix, and every added cell is `""` |
| Snapshot.PadRows | main.py:196-198 | the in-place loop leaves each array row equal to the padded original |
| Snapshot.ToTable | main.py:199 | pads each row itself, and both callers pass rows already padded (`Snapshot.PadAll`, `Snapshot.PadRows`): building the table succeeds exactly when no row has more than thirty cells; its rows are then the padded rows, and otherwise the first offending row is named |
| Snapshot.ToTablePadded | main.py:199 | on rows of at least thirty cells, the table is built exactly when every row has exactly thirty, and its rows are then the given rows unchanged |
| Snapshot.PadAll | main.py:196-198 | each row padded, and the count unchanged |
| Snapshot.LoadSnapshot | main.py:195-199 | copying the rows into a buffer, padding them in place and building the table gives the table of the padded rows |
| Reconcile.KeysConcat | main.py:205-206 | the ticket numbers of a concatenation are the union of both sides' numbers |
| Reconcile.Select | main.py:205-231 | a boolean-mask selection keeps each row that passes with its full multiplicity, and drops every row that fails |
| Reconcile.SelectConcat | main.py:205-231 | a selection distributes over concatenation |
| Reconcile.SelectAll | main.py:224-231 | selecting with a condition that every row passes keeps the table unchanged |
| Reconcile.Merge | main.py:205-206 | the merged table ends with the whole new batch, in batch order; before it come exactly the existing rows whose ticket number is not in the batch |
| Reconcile.Filter | main.py:224-231 | every kept row has an allowed division and a status that is not closed, and every row meeting both is kept |
| Reconcile.LastWith | main.py:236 | the last row with a given ticket number: none exactly when the number is absent; otherwise a row of the table with that number, at a position after which no row has that number |
| Reconcile.LastWithConcat | main.py:205-236 | in a concatenation, the last row with a number comes from the second part when that part has the number |
| Reconcile.LastWithUnique | main.py:236 | in a table with unique ticket numbers, a row is present exactly when it is the last row with its number |
| Reconcile.DedupLast | main.py:236 | after deduplication the ticket numbers are pairwise distinct, no number is lost, and every row comes from the input |
| Reconcile.DedupKeepsLast | main.py:236 | a row survives deduplication exactly when it is the last row with its ticket number |
| Reconcile.LexTotal | main.py:237 | comparison of the opening strings is total |
| Reconcile.LexTransitive | main.py:237 | comparison of the opening strings is transitive |
| Reconcile.LexAntisymmetric | main.py:237 | comparison of the opening strings is antisymmetric |
| Reconcile.SortedCons | main.py:237 | a row no later than every row of a sorted table can go in front of it |
| Reconcile.Insert | main.py:237 | inserting into a sorted table keeps it sorted and adds exactly that row |
| Reconcile.InsertFront | main.py:237 | a row no later than the first row goes first |
| Reconcile.InsertBehind | main.py:237 | a row later than the first row goes behind it |
| Reconcile.SortByOpening | main.py:237 | the sort gives rows ascending by opening date-time string, as a permutation of its input |
| Reconcile.CandidateFor | main.py:205-236 | the kept row for a ticket number comes from the filtered batch when the batch has the number, and from the filtered existing rows otherwise |
| Reconcile.LastWithSelectBoth | main.py:205-231 | removing rows of other ticket numbers before the filter does not change which row is last for a number |
| Reconcile.ReconciledTable | main.py:205-239 | any sorted permutation of the deduplicated rows is sorted, has unique ticket numbers, passes the filter, and holds a row exactly when it is the last filtered row with its number after the upsert |
| Reconcile.CountAtLeastTwo | main.py:236 | a row that occurs at two positions has multiplicity of at least two |
| Reconcile.NoDupCount | main.py:236 | in a table with unique ticket numbers every row occurs at most once |
| Reconcile.Upsert | main.py:205-239 | for a batch row whose ticket number no other batch row has, the final table holds that row exactly when it passes the filter, and no other row with its number |
| Reconcile.Untouched | main.py:205-239 | a ticket number absent from the batch keeps, in the final table, exactly the last filtered existing row with that number |
| Reconcile.SameRowsSameMultiset | main.py:236 | two tables with unique ticket numbers and the same rows are permutations of each other |
| Reconcile.RereconcileSame | main.py:205-239 | reconciling one batch against two snapshots that agree, for every ticket number outside the batch, on the last row passing the filter gives, for any outcomes of the two sorts, permutations of each other with the same length, and equal tables when no two rows share an opening date-time |
| Reconcile.ReconcileTwice | main.py:205-239 | reconciling the result again with the same batch gives, whichever ascending permutation each sort picks, a permutation of the same length, and the same table when no two rows share an opening date-time |
| Reconcile.SortedUnique | main.py:237 | two sorted permutations of a table whose opening date-times are distinct are equal |
| Reconcile.SortedHeads | main.py:237 | two such sorted permutations start with the same row |
| Reconcile.DropHead | main.py:237 | removing a shared first row from two permutations leaves permutations |
| Sheet.Output | main.py:241 | the values written are the header row followed by the data rows |
| Sheet.TrimBlanks | main.py:195-198 | the sheet service returns a row without its trailing empty cells: a prefix whose dropped cells are all `""`, and which does not end with `""` |
| Sheet.Read | main.py:190-195 | reading from row 2 over a given width returns one line per data row, each cut to the width and trimmed |
| Sheet.ReadBackRow | main.py:190-198 | a report row read back and padded keeps its cells within the width, and has `""` beyond it |
| Sheet.RoundTrip | main.py:190-241 | with the full thirty-column range, reading back what a run wrote gives the same table |
| Sheet.ReadLosesLastColumns | main.py:192 | with the range `A2:AB` as written, reading back keeps the first 28 cells of each row and blanks the last two |
| Sheet.ReadBackDiffers | main.py:192 | with the range as written, a row whose last cell is not empty does not survive the round trip |
| Sheet.Blank | main.py:192-198 | a row as it comes back over the range as written and padded: the first 28 cells kept, the last two empty |
| Sheet.BlankFixes | main.py:192-198 | a row whose last two cells are empty comes back unchanged |
| Sheet.BlankAll | main.py:192-198 | every row blanked, and the count unchanged |
| Sheet.BlankRow | main.py:192-198 | a written row read back over the range as written and padded is that row blanked |
| Sheet.ReadAsWritten | main.py:190-241 | over the range as written, the next run's snapshot is the written table with every row blanked |
| Window.Midnight | main.py:142 | the midnight starting the day of an instant: a multiple of a day, no later than the instant, and less than a day before it |
| Window.QueryWindow | main.py:142-143 | the window starts at the previous day's midnight, ends one second before two days later, and contains the current instant |
| Pipeline.Run | main.py:158-277 | a run produces nothing exactly when the batch is empty |
| Pipeline.Sync | main.py:158-241 | the run performed with the in-place steps gives the same outcome as the specification of the run |
| Pipeline.RunWrites | main.py:158-241 | a successful run writes the header, then rows ascending by opening date-time, with unique ticket numbers, all passing the filter, each the last filtered row with its number after the upsert |
| Pipeline.RerunUnchanged | main.py:158-241 | running again with the same batch on what a run wrote, read back over all thirty columns, succeeds and writes a permutation of the same values, with the same length and the header first; it writes exactly the same values when no two rows share an opening date-time |
| Pipeline.RerunUnchangedAsWritten | main.py:158-241 | with the range `A2:AB` as written, so that every snapshot line has at most 28 cells, running again with the same batch on what a run wrote also succeeds and writes a permutation of the same values, with the same length and the header first, and exactly the same values when no two rows share an opening date-time |
| Pipeline.SnapshotRowBlank | main.py:192-199 | a snapshot row built from a line of at most 28 cells has its last two cells empty |
| Pipeline.BlankedSnapshotAgrees | main.py:192-239 | when the snapshot rows had the two missed cells empty, blanking them in the reconciled table leaves, for every ticket number outside the batch, the same last filtered row |
| Pipeline.BlankKeeps | main.py:192-231 | blanking keeps the ticket number and the result of the business filter |
| Pipeline.OutputsMatch | main.py:241 | writing two permutations of each other (equal when openings are distinct) gives values of the same length and header that are permutations of each other, and equal when openings are distinct |
| Pipeline.OutputsAgree | main.py:205-241 | the values written by a second reconciliation are a permutation of the first's, with the same header; they are exactly the same when the opening date-times are distinct |
| Schema.LayoutConsistent | main.py:128-186 | thirty titles and thirty keys, and the positional constants name "Data/Hora abertura", "N.º", "Divisão" and "Status (sem tempo decorrido)" |
| Schema.SourceKeysDistinct | main.py:166-186 | no two source keys are equal |
| Schema.ColumnsDistinct | main.py:128-138 | no two titles are equal |
| Schema.KeysAreNotTitles | main.py:128-186 | no source key is also a title |

These members model source lines but have no row of their own. Their meaning is carried by the members named beside them:

- `Markup.StripTags` is the `re.sub` of main.py:117. Its own contract only says that the text never grows. `Markup.StripTagsLeavesNoTag`, `Markup.StripTagsFixesNoTag`, `Markup.NoCloseSurvivesStrip` and `Markup.BoldTagsRemoved` state what it does.
- `Markup.Strip` is the `strip()` of main.py:117. It is `TrimEnd` after `TrimStart`, whose rows state it.
- `Normalizer.IsEmpty` is the `df_novo.empty` test of main.py:158: no record, or no column. `Pipeline.Run` returns nothing exactly when it holds.
- `Normalizer.Normalize` is the composition of main.py:160-187. `Normalizer.NormalizeComplete`, `Normalizer.NormalizeServiceBatch` and `Normalizer.NormalizeIncomplete` state what it yields.
- `Reconcile.Without` is the `~isin` selection of main.py:205. It is a `Select`, which states it, and `Reconcile.Merge` states what it contributes.
- `Reconcile.Keep` is the boolean mask of main.py:224-231: an allowed division and a status that is not closed. `Reconcile.Filter` states the selection by it.
- `Reconcile.Reconcile` is the merge, filter, dedup and sort chain of main.py:205-239. The lemmas `Reconcile.ReconciledTable`, `Reconcile.Upsert`, `Reconcile.Untouched`, `Reconcile.RereconcileSame` and `Reconcile.ReconcileTwice` state what it yields, with `Reconcile.ReconcileSorts` placing it among their sorted outcomes.
- `Pipeline.RunSucceeds` is `Pipeline.Run`'s success branch of main.py:158-241, written out for use in proofs. `Pipeline.RunWrites` states what that branch writes.

## Left out

- The SOAP client, its offline transport, and the stub-schema loader (main.py:12-13, 45-101, 151-153): network and library plumbing. The model takes the fetched batch as a `RawBatch` of column names and records.
- Decoding the response with `json.loads` and building the data frame (main.py:155-156). A record that lacks a field gets a non-text cell, as pandas gives it NaN. All other non-string JSON values are the one `NonText` case, since the cleaner maps every one of them to `""`.
- Google authentication and the `get`/`clear`/`update` calls (main.py:105-110, 190-195, 243-253): external I/O. `Sheet.Output` is the value list the update writes. `Sheet.Read` models the values the get returns. The sheet service also leaves out empty trailing rows; that is not modelled.
- The metadata timestamp block (main.py:257-274), `datetime.now`, the time zone, `strftime`, the environment reads and every `print`. The current instant is a parameter of `Window.QueryWindow`, in whole seconds of local wall-clock time.
- `formatar_data` (main.py:119-124) hands the parsing to `pd.to_datetime`, whose rules are not part of this model. It is a `format: string -> string` parameter of the normalizer.
- Normalizer.Project: duplicate column labels are not modelled. If a renamed batch had two columns with the same title, pandas would return both; the projection takes the first.
- Normalizer.NormalizeComplete: stated only for batches in which no column name is already a report title. Every source key differs from every title (`Schema.KeysAreNotTitles`), so `Normalizer.NormalizeServiceBatch` discharges this for a batch whose columns are all source keys.
- Reconcile.Key: the `astype(str)` at main.py:201-202 is the identity here, because every cell is already a string after cleaning and after the sheet read. A ticket number the service sends as a JSON number therefore becomes `""` through the cleaner, as the program does.
- `fillna('')` (main.py:238) is the identity on the model's tables, because no cell can be missing after padding and projection.
- Reconcile.SortByOpening: the tie order among rows with equal opening date-time is not modelled. The pandas sort is not stable, so the properties hold for every sorted permutation (`Reconcile.ReconciledTable`), and rerun equality is claimed only when openings are distinct.
- Markup.IsSpace: the whitespace set is the one the host language's `strip` uses. Unicode code points beyond those listed are not whitespace to it, and the model has no normalisation or case folding.

## Findings

| source | as written | input that shows it | evidently intended | confidence | as-written member | corrected member |
|---|---|---|---|---|---|---|
| main.py:192 | the snapshot is read from the range `A2:AB`, which is 28 columns, while each row has 30 (`colunas`); each read row is padded with `""` up to 30 | a ticket that one run writes from its batch with "Solução dentro do SLA" set to `"Sim"`, and that passes the filter but is absent from the next run's batch: the next run rewrites that cell, and "Resposta dentro do SLA", as `""` | the range `A2:AD`, covering all thirty report columns, so that rows not in the batch survive unchanged | not executed | Sheet.ReadLosesLastColumns | Sheet.RoundTrip |

`Sheet.ReadBackDiffers` shows the same discrepancy as a failed round trip. The loss shows across runs with different batches. It does not show when a run is repeated with the same batch: `Pipeline.RerunUnchangedAsWritten` proves this over the range as written. The snapshot rows a run keeps never had the two missed cells, and the batch rows that lose them are replaced by the same batch rows. `Pipeline.RerunUnchanged` proves the same over the full width, `Sheet.READ_WIDTH`.
