# rm2spree in Dafny

rm2spree keeps a Spree web store in step with a Retail Manager (MYOB) stock
database. Each run of the sync job does five things:

- It reads the stock records, departments and level-1 categories from the database.
- It fingerprints every stock record by the concatenation of its changeable fields.
- It compares the fingerprints with the snapshot saved by the previous run. Each
  changed id becomes `:new`, `:update` or `:delete`.
- It turns each change into a web-store action, based on the record's `custom1`
  "web store" flag before and after the change.
- It carries the action out against the store's REST API. The outcomes are tallied
  in `action_count`, and problems with categories go to `errors_for_email`.

Two helpers complete the core:

- a multipart/form-data uploader. Its body stream is read chunk by chunk by the HTTP
  client, and it uploads product images;
- a reader for the translation spreadsheet. It lists the product ids whose
  translations are complete.

The modules follow the source:

| module | file | what it holds |
|---|---|---|
| `Wrappers` | wrappers.dfy | Ruby's `nil` as `Option`, and Hash lookup |
| `RubyText` | ruby_text.dfy | the String methods the job relies on (`strip`, `upcase`, `capitalize`, `to_i`, `to_s`, `gsub`, `split`, `blank?`) |
| `Diff` | diff.dfy | `compare_tables` |
| `Webstore` | webstore.dfy | `evaluate_stock_action_with_webstore` |
| `Stock` | stock.dfy | `fetch_stock_records`, `changeable_fields`, `get_md5_hashes`, `quantity_field` |
| `Categories` | categories.dfy | `fetch_categories`, `fetch_departments`, `find_category_details_by_catvalue_id` |
| `Catalog` | catalog.dfy | the taxonomy and taxon finders, `get_product_data`, `find_by_stock_id`, the soft-delete rule |
| `OdbcSpree` | odbc_spree.dfy | the `RM` class: its set-up, the fetches, the handlers, the store calls, `action_count` and `errors_for_email` |
| `Multipart` | multipart_upload.dfy | `StreamPart`, `StringPart`, `MultipartStream` and `Multipart#post` |
| `ProductSpreadsheet` | product_spreadsheet.dfy | `ProductSpreadsheet#valid_products` |

The source's mutable objects are Dafny classes:

- the `RM` job, `action_count` and `errors_for_email`;
- an open file, and the multipart body stream with its cursor;
- the spreadsheet reader, whose `@columns` list each call shortens.

Each handler is specified by a pure function of the job's state, which gives the
counters it bumps and the requests it sends. The lemmas state what the source
promises about those functions.

## Model

| member | source | states |
|---|---|---|
| Webstore.EvaluateStockAction | lib/odbc_spree.rb:357-384 | the action is the transition table on "was on the store" / "is on the store": an update of a product that leaves the store deletes it, one that joins adds it, one that stays updates it, one never on the store does nothing; a delete acts only for a product that was on, a new record only for one that is |
| Webstore.TransitionIsSafe | lib/odbc_spree.rb:357-384 | a delete is decided only when the old flag is "yes", an add only when the new flag is "yes", an update exactly when both are; nothing is done exactly in the three "not on the store" cases |
| Webstore.NoReversal | lib/odbc_spree.rb:371-382 | a record that disappeared is never added and a new record is never deleted |
| Diff.Classification | lib/odbc_spree.rb:322-344 | a key is in the result iff its value differs between the snapshots (nil when absent); it is `:new` iff it was nil before, `:delete` iff it is nil now, `:update` iff it is non-nil in both |
| Diff.CompareTables | lib/odbc_spree.rb:322-354 | the two loops produce exactly the classification, and the three tallies are the sizes of the key sets each loop counted |
| Diff.ScanPrevious | lib/odbc_spree.rb:326-336 | the loop over the old snapshot marks every key that differs as `:delete` or `:update` and counts each mark |
| Diff.VisitPrevious | lib/odbc_spree.rb:327-335 | one step of the first loop adds that key's mark and keeps the tallies equal to the mark counts |
| Diff.ScanCurrent | lib/odbc_spree.rb:337-344 | the loop over the current snapshot marks (overwriting) every key that was nil before as `:new` and counts it |
| Diff.VisitCurrent | lib/odbc_spree.rb:338-343 | one step of the second loop adds that key's mark and keeps the `:new` tally equal to its marks |
| Diff.PassesClassify | lib/odbc_spree.rb:322-344 | the second loop's marks laid over the first loop's give the classification |
| Diff.CompareWithItself | lib/odbc_spree.rb:322-344 | a snapshot compared with itself has no changes |
| Diff.CountsAddUp | lib/odbc_spree.rb:324-344 | the three tallies add up to the number of changes plus the keys stored as nil before and set now, which are counted as updated and then re-labelled new |
| Diff.UpdatedSplit | lib/odbc_spree.rb:326-344 | the `:update` tally is the keys reported as updated plus those re-labelled keys |
| Diff.AddedAndDeleted | lib/odbc_spree.rb:326-344 | the `:new` and `:delete` tallies count exactly the keys reported as new and deleted |
| Diff.ClassifiedAt | lib/odbc_spree.rb:326-344 | per key, when each loop counts it, and that the reported action agrees with the counted ones |
| Diff.CountsAddUpWithoutNil | lib/odbc_spree.rb:324-344 | when the old snapshot holds no nil (fetched fingerprints never do), the tallies add up to the number of changes |
| Diff.Lift | lib/odbc_spree.rb:305-312 | a fetched Hash seen as a nil-able Hash keeps its keys and values |
| Stock.Put | lib/odbc_spree.rb:192 | storing a field sets that field's text and leaves every other field as it was |
| Stock.FetchStockRecords | lib/odbc_spree.rb:173-209 | the result is the record Hash keyed by `stock_id.to_i`, with the money columns converted |
| Stock.RowToRecord | lib/odbc_spree.rb:190-193 | the inner loop builds the record of one row, each column name holding that row's value |
| Stock.StockHashKeys | lib/odbc_spree.rb:188-195 | an id is a key iff some row's `stock_id` reads as it |
| Stock.LastRowWins | lib/odbc_spree.rb:189-195 | the record filed under an id is the one built from the last row with that id |
| Stock.ConvertMoney | lib/odbc_spree.rb:197-201 | every record has its `cost`, `sell` and `bonus` converted, and nothing else changes |
| Stock.MoneyColumnsConverted | lib/odbc_spree.rb:197-201 | after the fetch the three money columns hold the converted text and every other field the raw one |
| Stock.QuantityOfIntText | lib/odbc_spree.rb:524-526 | `quantity_field` reads back a quantity stored from an integer, and 0 for a missing one |
| Stock.ChangeableFields | lib/odbc_spree.rb:292-303 | the loop builds the concatenation of the 25 changeable fields' texts, in order |
| Stock.GetMd5Hashes | lib/odbc_spree.rb:305-312 | one fingerprint per record id, and no other key |
| Stock.JoinAppend | lib/odbc_spree.rb:299-301 | joining two field lists is joining each and concatenating |
| Stock.SameFieldsSameFingerprint | lib/odbc_spree.rb:292-312 | a record whose changeable fields all read the same is never reported as changed |
| Stock.OneFieldChange | lib/odbc_spree.rb:292-303 | a change in exactly one changeable field changes the fingerprint input |
| Stock.ChangeableFieldChangeSeen | lib/odbc_spree.rb:292-303 | for each of the 25 changeable fields, a change to that field alone changes the fingerprint input |
| Stock.ChangeableFieldEditUpdates | lib/odbc_spree.rb:292-312 | with a digest that tells inputs apart, a record edited in one changeable field alone is classified `:update` |
| Stock.AdjacentFieldsBlur | lib/odbc_spree.rb:292-303 | with no separator, a cost of "1" and freight "23" give the same fingerprint input as "12" and "3", so such a change goes unseen |
| Categories.FetchCategories | lib/odbc_spree.rb:211-223 | the loop builds the id-to-name Hash of the rows, a later row winning |
| Categories.FetchDepartments | lib/odbc_spree.rb:226-242 | the same Hash without department 0, with every other id unchanged |
| Categories.NameMapKeys | lib/odbc_spree.rb:214-216 | an id is a key iff some row carries it |
| Categories.NameMapLastWins | lib/odbc_spree.rb:214-216 | the name under an id is that of the last row with the id |
| Categories.DeptDetails | lib/odbc_spree.rb:276-281 | the keys are exactly the non-zero departments of association rows of the category value, each mapped to the department's name |
| Categories.FindCategoryDetails | lib/odbc_spree.rb:273-286 | `sub_cat` is the id, `cat_name` its level-1 name, and `dept_details` has exactly the non-zero associated departments as keys |
| Categories.DeptDetailsKeys | lib/odbc_spree.rb:276-281 | `dept_details` is empty iff the category value has no non-zero department |
| Catalog.FindFirst | lib/odbc_spree.rb:739-750 | the early-return search answers nil iff no element qualifies, else the first one that does |
| Catalog.FindTaxonomyIdByDept | lib/odbc_spree.rb:739-744 | nil iff no taxonomy has the department, else the id of the first that has |
| Catalog.FindTaxonIdByCatAndTaxonomy | lib/odbc_spree.rb:745-750 | nil iff no taxon has both the category and the taxonomy, else the id of the first that has |
| Catalog.FeasibleWeight | lib/odbc_spree.rb:549-550 | a weight is kept iff it lies strictly between 0 and 10 |
| Catalog.GetProductData | lib/odbc_spree.rb:540-554 | the SKU is the stripped barcode, the meta description is `stock_id=N`, the weight is kept iff feasible, and no taxon is set |
| Catalog.FindByStockId | lib/odbc_spree.rb:724-728 | nil iff no listed product's meta description parses to the id, else the first that does |
| Catalog.MetaDescriptionRoundTrip | lib/odbc_spree.rb:724-728 | the string written into a product reads back, through `split("=")[1].to_i`, as its stock id |
| Catalog.CreatedProductFound | lib/odbc_spree.rb:724-728 | a product created from a record is found again by the record's id |
| Catalog.SoftDeleteOnlyAtZero | lib/odbc_spree.rb:595-601 | `deleted_at` is set to now iff the quantity drops from positive to 0, cleared iff it rises from 0, else kept |
| Catalog.SoftDeleteStable | lib/odbc_spree.rb:595-601 | a quantity that stays on the same side of zero keeps `deleted_at`, and one that sells out is always hidden |
| OdbcSpree.NormalizeBaseUrl | lib/odbc_spree.rb:63 | the URL ends in "/", extends the configured one by at most that slash, and is unchanged when it already ended in "/" |
| OdbcSpree.NormalizeBaseUrlIdempotent | lib/odbc_spree.rb:63 | normalising twice is normalising once |
| OdbcSpree.EnvFilenameOfStem | lib/odbc_spree.rb:66-68 | `name.yml` becomes `name_env.yml` |
| OdbcSpree.EnvFilenameWithoutYml | lib/odbc_spree.rb:66-68 | a name without ".yml" is left alone |
| OdbcSpree.LoadValidProducts | lib/odbc_spree.rb:91 | `:all` iff the list cannot be loaded, else every barcode stripped and upcased, in order |
| OdbcSpree.Bump | lib/odbc_spree.rb:470-503 | tallying keeps every counter present |
| OdbcSpree.BumpCounts | lib/odbc_spree.rb:470-503 | each counter grows by the number of times it is bumped |
| OdbcSpree.BumpAppend | lib/odbc_spree.rb:470-503 | tallying two runs one after the other is tallying both at once |
| OdbcSpree.ActionCount.constructor | odbc_spree_sync.rb:73 | every counter starts at 0 |
| OdbcSpree.ActionCount.Increment | lib/odbc_spree.rb:470 | `action_count[c] += 1` bumps that counter only |
| OdbcSpree.TaxonEffectCounting | lib/odbc_spree.rb:466-485 | past the gate: nothing is counted iff a taxon was found but the weight was not kept; `:image` only after a created product's upload succeeded; a product is created only with a taxon and a kept weight |
| OdbcSpree.NewProductCounting | lib/odbc_spree.rb:455-488 | a product the gate keeps out counts `:ignore_image` and sends nothing; a created product carries a taxon, a weight strictly between 0 and 10, the stripped barcode and its own `stock_id=N` |
| OdbcSpree.ActionCounting | lib/odbc_spree.rb:454-504 | an update or delete counts once, as itself on success and `:error` otherwise; no action counts `:ignore`; `:ignore_valid` is never counted |
| OdbcSpree.ActionRequests | lib/odbc_spree.rb:454-504 | saves go out only for updates, soft deletes only for deletes, creations and uploads only for new products |
| OdbcSpree.UpdateOutcomeSends | lib/odbc_spree.rb:574-610 | an update sends at most one save, of the product found by its correlation string, and succeeds only if it sent it |
| OdbcSpree.DeleteOutcomeSends | lib/odbc_spree.rb:613-621 | a delete sends at most one soft delete, stamped now, of a product that answers to the id |
| OdbcSpree.StockCounting | lib/odbc_spree.rb:444-506 | a record in neither snapshot does nothing; otherwise the action decided from the two flags is carried out |
| OdbcSpree.WebStoreFlag | lib/odbc_spree.rb:448-449 | a record reads as on the web store only if the snapshot holds it and its `custom1` normalises to "yes" |
| OdbcSpree.MissingRecordRaises | lib/odbc_spree.rb:446-449 | after a first run, a change is `:update` iff both snapshots hold the record, and any other change reads `custom1` from a missing record; on the first run every change is `:new` of a record both snapshots hold |
| OdbcSpree.MissingRecordHandled | lib/odbc_spree.rb:446-451 | with the intended reading, after a first run no change reads a missing record; a `:delete` hides the product iff it was flagged before, a `:new` adds it iff it is flagged now |
| OdbcSpree.StockRequestsAreSafe | lib/odbc_spree.rb:444-506 | the store is asked to create only a product flagged now, to hide only one flagged before, to save only one flagged in both |
| OdbcSpree.TaxonRequests | lib/odbc_spree.rb:425-432 | one taxon request per department visited |
| OdbcSpree.TaxonRequestsAppend | lib/odbc_spree.rb:425-432 | visiting one more department sends one more request, for that department |
| OdbcSpree.TaxonDepartmentsAreAssociations | lib/odbc_spree.rb:422-433 | a category named "<N/A>" gets no taxon; otherwise its taxons go to exactly its non-zero associated departments |
| OdbcSpree.EnumeratesStep | lib/odbc_spree.rb:425 | Hash iteration lists each department once |
| OdbcSpree.UpdateEntryAsWrittenRaises | lib/odbc_spree.rb:390-420 | as written, the `:update` branch of both category handlers raises for every state |
| OdbcSpree.UpdateEntryReportsRename | lib/odbc_spree.rb:393-420 | the intended entry reports the name before (old tables) and after (current tables), for departments and categories |
| OdbcSpree.ConfigPathPerEnvironment | lib/odbc_spree.rb:52-57 | "test" and "config" read `spec/config_test.yml`; every other environment reads a file of its own |
| OdbcSpree.RM.constructor | lib/odbc_spree.rb:49-94 | the settings come from the environment's configuration file; the base URL is normalised, the three file names get the environment, the proofed list is loaded or `:all` |
| OdbcSpree.RM.FetchCurrentData | lib/odbc_spree.rb:158-165 | the four fetches fill the current tables, records and fingerprints |
| OdbcSpree.RM.FetchOldData | lib/odbc_spree.rb:167-171 | the saved snapshots, each defaulting when its file is missing; missing records default to the current ones |
| OdbcSpree.RM.GetSpreeCatalog | lib/odbc_spree.rb:532-538 | the listed taxonomies and taxons are stored |
| OdbcSpree.RM.AddSpreeProduct | lib/odbc_spree.rb:557-571 | nothing is sent without a taxon; otherwise the product is sent and the answer is the store's |
| OdbcSpree.RM.UploadImage | lib/odbc_spree.rb:650-662 | one upload to `<base>admin/products/<permalink>/images`, true iff it went through |
| OdbcSpree.RM.UpdateSpreeProduct | lib/odbc_spree.rb:574-610 | the answer and the request sent are those of the update outcome |
| OdbcSpree.RM.DeleteSpreeProduct | lib/odbc_spree.rb:613-621 | the answer and the request sent are those of the delete outcome |
| OdbcSpree.RM.ProcessStockChange | lib/odbc_spree.rb:444-506 | the counters bumped and the requests sent are those of the change's effect |
| OdbcSpree.RM.CarryOut | lib/odbc_spree.rb:454-504 | the branch for the web-store action bumps and sends exactly what the action's effect says: one `:update`/`:delete` or `:error` for an update or delete, `:ignore` for no action, the new-product run for an add |
| OdbcSpree.RM.ProcessNewProduct | lib/odbc_spree.rb:455-488 | the `:new` branch bumps and sends what its effect says |
| OdbcSpree.RM.AddNewProduct | lib/odbc_spree.rb:466-485 | no taxon is an error, an infeasible weight does nothing, otherwise the product is created |
| OdbcSpree.RM.CreateProduct | lib/odbc_spree.rb:469-480 | `:new` on creation, `:error` on refusal, then the image upload when there is an image |
| OdbcSpree.RM.AddSpreeCategory | lib/odbc_spree.rb:624-648 | the taxon or taxonomy request is sent |
| OdbcSpree.RM.ProcessDepartmentChange | lib/odbc_spree.rb:390-413 | an update files the rename entry, a new department sends one capitalised taxonomy, a delete files a "## DELETED" entry and sends nothing |
| OdbcSpree.RM.ProcessCategoryChange | lib/odbc_spree.rb:415-442 | an update files the rename entry, a new category sends one taxon per department in some Hash order (none for "<N/A>" or no department), a delete files a "## DELETED" entry |
| OdbcSpree.RM.AddCategoryTaxons | lib/odbc_spree.rb:425-432 | the loop sends one taxon per department, each department once |
| OdbcSpree.RM.AddDepartmentTaxon | lib/odbc_spree.rb:426-431 | one turn of the department loop appends exactly the taxon request of that department to what was sent |
| Multipart.FileStream.Read | lib/multipart_upload.rb:71 | `IO#read(n)`: nil at the end for n > 0, else the next min(n, left) bytes, and the position moves past them |
| Multipart.StringRead | lib/multipart_upload.rb:84-86 | `str[offset, n]`: nil iff offset is past the end, else min(n, left) characters from offset |
| Multipart.ReadPart | lib/multipart_upload.rb:70-86 | a part read at the cursor yields the part's next characters, for a stream as for a string, though the stream ignores the offset |
| Multipart.ConcatAppend | lib/multipart_upload.rb:96-134 | the body of two part lists is the two bodies one after the other |
| Multipart.SumSizesIsLength | lib/multipart_upload.rb:96-102 | when each stream's size is its file's length, the sum of the sizes is the body's length |
| Multipart.MultipartStream.Size | lib/multipart_upload.rb:96-102 | `size` is the sum of the part sizes, which is the body's length |
| Multipart.MultipartStream.Read | lib/multipart_upload.rb:104-135 | `read` keeps the cursor invariant, answers nil iff the cursor is past the last part, and otherwise returns and moves as the reference reader does |
| Multipart.MultipartStream.ReadCurrentPart | lib/multipart_upload.rb:120 | reads the next characters of the current part; only its stream moves |
| Multipart.MultipartStream.ReadOn | lib/multipart_upload.rb:122-130 | the recursive read on the next part, appended to what the current part gave |
| Multipart.ReadSpecCursor | lib/multipart_upload.rb:106-134 | nil iff the cursor is past the end; the cursor stays inside a part and never moves back |
| Multipart.ReadSpecTakes | lib/multipart_upload.rb:110-134 | a read returns exactly min(n, characters left) characters, the next ones of the body, and what is left afterwards is the rest |
| Multipart.ReadSpecRunsOut | lib/multipart_upload.rb:118-125 | the cursor runs past the last part iff more was asked for than was left |
| Multipart.ReadSpecProgress | lib/multipart_upload.rb:104-135 | a read of n > 0 either answers nil with nothing left, or takes a non-empty prefix of what is left |
| Multipart.MultipartStream.RemainingAtStart | lib/multipart_upload.rb:90-94 | a fresh stream has the whole body left to read |
| Multipart.MultipartStream.Drain | lib/multipart_upload.rb:104-135 | reading chunks until nil yields the whole body, in order, with nothing skipped or repeated |
| Multipart.HeaderNamesFile | lib/multipart_upload.rb:18-22 | the header names the text after the last backslash of the path |
| Multipart.FileLayout | lib/multipart_upload.rb:16-26 | two parts per file |
| Multipart.FileLayoutParts | lib/multipart_upload.rb:16-26 | file k gives its header at 2k and its stream, of the file's size, at 2k+1 |
| Multipart.FileLayoutStreams | lib/multipart_upload.rb:23-25 | each stream part has its file's size, and no stream is shared |
| Multipart.FileParts | lib/multipart_upload.rb:16-26 | the loop builds the layout over freshly opened, unread files |
| Multipart.Assemble | lib/multipart_upload.rb:16-33 | the layout plus one closing part, in a stream whose cursor is at the start and whose invariant holds |
| Multipart.CloseAll | lib/multipart_upload.rb:52-54 | every file is closed |
| Multipart.Post | lib/multipart_upload.rb:10-57 | the parts are the layout then the closing part; the content type carries the boundary; the content length is the body's; unless the request raises, what is sent is the body and every file ends closed, and when it raises nothing is sent and every file stays open |
| ProductSpreadsheet.CellColumnRoundTrip | lib/product_spreadsheet.rb:57 | cell column `col_i * n + loc_i + 2` and its inverse undo each other |
| ProductSpreadsheet.CellColumns | lib/product_spreadsheet.rb:55-58 | the checked cells are exactly sheet columns 2 to `columns * n + 1`; the key column 1 is never checked |
| ProductSpreadsheet.RowValidSpan | lib/product_spreadsheet.rb:52-63 | a row is valid iff every cell from column 2 to `columns * n + 1` is non-blank |
| ProductSpreadsheet.ScanEnd | lib/product_spreadsheet.rb:47-68 | the do-while processes its first row, goes on while the next id is non-blank, and stops at the first row whose successor's id is blank |
| ProductSpreadsheet.KeptRowsSpec | lib/product_spreadsheet.rb:63-66 | the kept rows are exactly the valid rows of the scan, in ascending order, no more than the rows processed |
| ProductSpreadsheet.KeptIdsOfRows | lib/product_spreadsheet.rb:52-63 | the result holds the column-1 id of each kept row, in the same order |
| ProductSpreadsheet.KeptRowsFewerColumns | lib/product_spreadsheet.rb:45 | checking fewer columns, as a second call does, keeps every row kept before |
| ProductSpreadsheet.CheckRow | lib/product_spreadsheet.rb:54-61 | the nested loops end with `valid` true iff every checked cell is non-blank |
| ProductSpreadsheet.ScanRows | lib/product_spreadsheet.rb:47-68 | the do-while returns the ids of the valid rows from the first data row to where the scan stops |
| ProductSpreadsheet.IndexOf | lib/product_spreadsheet.rb:39-40 | `Array#index`: nil iff absent, else the first position |
| ProductSpreadsheet.ProductSpreadsheet.WorksheetIndex | lib/product_spreadsheet.rb:39-40 | the worksheet read is the one at the position of "products" |
| ProductSpreadsheet.ProductSpreadsheet.ValidProducts | lib/product_spreadsheet.rb:28-73 | `@columns` loses its first element for good, and the result is the scan over the remaining columns |
| RubyText.TrimTrailingShape | lib/multipart_upload.rb:18 | `split` drops only a trailing run of the separator |
| RubyText.HasOtherThanTrim | lib/multipart_upload.rb:18 | `split(c).last` exists (something is left once the trailing separators are dropped) iff the string holds a character other than `c` |
| RubyText.SplitLastOf | lib/multipart_upload.rb:18 | the last segment of `dir\name` is `name` |
| RubyText.ToIOfIntToS | lib/odbc_spree.rb:525 | `to_i` reads back an integer's `to_s` |

## Left out

- The database connection and SQL queries. The fetches take the rows the queries return.
- YAML snapshot loading and saving, and bootstrap file deletion. Snapshots enter as `Option` values, None for a missing file.
- Logging, the logger patch and `send_error_email`. They only produce output.
- `find_image`, the directory walk and the `File.find` patch. The image path is an answer in `Remote`.
- `get_category_md5_hashes`: nothing in the job calls it.
- `Digest::MD5` is a parameter `md5`. `to_f` is a parameter (`toF`, `toReal`). `Time.now` is `Remote.now`, and `1.day.ago` is not modelled.
- The ActiveResource calls (`find(:all)`, `save`) and `find_category_by_stockid`'s query. They are answers in `Remote`, and the writes are `Request` values.
- `rand(1000000)` is the `nonce` parameter.
- The bytes of a file are given with its path in `FileParam`; the file system is not modelled.
- `Multipart.Post` stops before the network. `URI.parse`, `basic_auth`, https and the request itself are not modelled. `Drain` models Net::HTTP reading the body stream in positive chunks. The parameter `requestRaises` stands for a connection or request that raises. Such a raise is modelled as coming before any byte is read, so the position it leaves the streams at is not modelled.
- `Multipart.Post` requires every path to hold a character other than a backslash. For an empty or all-backslash path, `split("\\").last` is nil and building the header raises a TypeError.
- The Google login, the spreadsheet lookup by URL and the YAML config of `ProductSpreadsheet`. `ValidProducts` takes the worksheets.
- `ProductSpreadsheet.ProductSpreadsheet.ValidProducts` requires the "products" worksheet index to lie within the worksheet list. Otherwise the sheet is nil and `sheet[row, 1]` raises a NoMethodError.
- `ProductSpreadsheet.ProductSpreadsheet.ValidProducts` does not keep the per-locale `row_hash`. Only the row's id and validity leave the loop.
- `RubyText.Blank` treats ASCII white space only. `blank?` also accepts Unicode spaces.
- `OdbcSpree.RM.ProcessStockChange` reads the flag as intended (see Findings): a record missing from a snapshot reads as not on the web store. It requires every record it reads to have a `custom1`. On the `:new` path it also requires a barcode and a category row. Where these are missing, the source raises.
- `OdbcSpree.RM.AddSpreeProduct` does not model a `save` that raises. Neither `add_spree_product`, `process_stock_change` nor the driver rescues it, so it would end the run before the tallies are logged and the snapshots saved. The store's answer is modelled only as acceptance (a permalink) or refusal.
- `OdbcSpree.RM.constructor` takes the parsed configuration file as a function of its path. A missing or malformed file, which raises, is not modelled.
- `OdbcSpree.RM.ProcessDepartmentChange` and `OdbcSpree.RM.ProcessCategoryChange` use the corrected `:update` branch (see Findings). They require a name for a new department, or for a new category that gets taxons, because `nil.capitalize` raises.
- `Catalog.FindByStockId` returns the index of the product rather than the product.
- `:ignore_valid` is never incremented by the source. The model proves it stays untouched.

## Findings

| source | as written | input that shows it | evidently intended | confidence | as-written member | corrected member |
|---|---|---|---|---|---|---|
| lib/odbc_spree.rb:397 | the `:update` branch of `process_department_change` reads `@categories_curent`, which is never assigned, so `nil[:dept]` raises | any department whose name changed between runs | file an entry with the old and new department names read from `@categories_current` | high (not executed) | OdbcSpree.UpdateEntryAsWrittenRaises | OdbcSpree.UpdateEntryReportsRename |
| lib/odbc_spree.rb:448-449 | `custom1` is read from the record in both snapshots once either holds the id | after a run that saved the snapshots, a product removed from the database (raw `:delete`) or added to it (raw `:new`): one snapshot lacks the record, `nil["custom1"]` raises, and the run ends before the snapshots are saved, so every later run fails the same way | a record missing from one snapshot reads as not on the web store, so a delete hides a product that was on the store and an add creates one flagged for it | high (not executed) | OdbcSpree.MissingRecordRaises | OdbcSpree.MissingRecordHandled |
| lib/odbc_spree.rb:420 | the same misspelt variable in `process_category_change` makes `nil[:cat1]` raise | any category whose name changed between runs | file an entry with the old and new category names | high (not executed) | OdbcSpree.UpdateEntryAsWrittenRaises | OdbcSpree.UpdateEntryReportsRename |
