# immich-auto-stacking: the ingestion step of `stack()`

`auto_stack.py` fetches up to 1000 rows from the Immich database. Each row
joins an `asset` with its `asset_exif` row and with one of its
`asset_metadata` rows, or with NULL metadata columns when it has none. The
script then turns these rows into one dict per asset. This project models
that ingestion step as pure functions over immutable values and proves what
it computes:

- **Row decoding** (`Rows`). Each fetched tuple is zipped with the 66 column
  names of the select list into a column dict (`dict(zip(headers, x))`).
  The names are proved distinct, so column `i` lands under the `i`-th name
  and no value is lost.
- **Metadata fold** (`Metadata`). This is the first loop. A row contributes
  when its `asset.id`, `asset_metadata.key` and `asset_metadata.value` are
  all truthy in Python's sense. A contributing row sets `key → value` in its
  asset's metadata dict and loses its four `asset_metadata.*` columns.
  Deleting a column the row lacks raises `KeyError`.
- **Asset index** (`Assets`). This is the second loop. Rows with a falsy id
  are skipped. Every other row is stored under its id, so the last row for an
  id wins. The stored row carries the metadata folded for its id.
- **Fetch retry** (`FetchRetry`). The query runs at most three times. A
  success breaks the loop. An `OperationalError` is swallowed and the query
  retried. Any other exception leaves `stack()`. The database's behaviour is
  a parameter: one outcome per attempt.
- **Pipeline** (`AutoStack`). `Stack` chains these steps into the `assets`
  dict or the exception that leaves `stack()`. When all three attempts fail
  with `OperationalError`, `res` is never bound, so line 188 raises
  `UnboundLocalError`. The model returns that error explicitly.

Python values are modelled by `Values.Value`: `None`, booleans, integers,
strings, and an `Opaque` case for uuids, timestamps and other objects, each
with its truthiness. A row is a `map<string, Value>`.

`auto_stack.py` has no clustering, no stack commit and no checkpoint write.
It reads `./.latest` but never writes it, and it ends by printing the
assets.

## Model

| member | source | states |
|---|---|---|
| Rows.Headers | auto_stack.py:10-77 | the 66 column names, pairwise distinct, the last four being the `asset_metadata` key, value, updateId and updatedAt columns |
| Rows.Zip | auto_stack.py:178 | the keys of `dict(zip(keys, vals))` are exactly the keys of the pairs that `zip` produces, up to the shorter input |
| Rows.Decode | auto_stack.py:178 | a decoded tuple stores column `i` under `headers[i]` for every `i` below `min(66, len(x))`, has exactly those keys, and has `min(66, len(x))` entries |
| Rows.HeadersDistinct | auto_stack.py:10-77 | the 66 header names are pairwise distinct |
| Rows.MetadataHeaders | auto_stack.py:73-76 | the last four headers are the `asset_metadata` key, value, updateId and updatedAt columns |
| Rows.ZipLookup | auto_stack.py:178 | in `dict(zip(keys, vals))` a pair that no later pair overrides keeps its value |
| Rows.ZipSize | auto_stack.py:178 | `dict(zip(keys, vals))` over distinct keys has one entry per pair that `zip` produces |
| Metadata.FoldMetadata | auto_stack.py:187-191 | the `metadata` defaultdict after the first loop has an entry for an id if and only if some contributing row has that id |
| Metadata.MetadataKeys | auto_stack.py:187-191 | an asset's folded metadata contains key `k` if and only if some row with that truthy id has key `k` and a truthy value |
| Metadata.MetadataLastWins | auto_stack.py:188-191 | when several contributing rows give an asset the same key, the value of the last one is kept |
| Metadata.MetadataEmptyWithoutRows | auto_stack.py:187 | an asset that no contributing row names gets an empty metadata dict from the defaultdict |
| Metadata.MetadataEntriesTruthy | auto_stack.py:189-191 | every id, key and value stored in the metadata is truthy |
| Metadata.StripRow | auto_stack.py:189-195 | a contributing row loses exactly the four metadata columns and keeps every other column unchanged; a non-contributing row is unchanged, null metadata columns included; a contributing row lacking one of the four columns raises KeyError, naming `asset_metadata.updateId` when that column is missing and `asset_metadata.updatedAt` otherwise, since the deletes run in that order; the id never changes |
| Metadata.StripAll | auto_stack.py:188-195 | the first loop strips every row in order, or fails with the KeyError of the first row that cannot be stripped |
| Assets.Attach | auto_stack.py:201 | the stored asset keeps every column of the row except `asset_metadata`, which it overwrites with the metadata folded for the row's id |
| Assets.IndexAssets | auto_stack.py:197-202 | the `assets` dict has at most one entry per row and only truthy ids as keys |
| Assets.IndexKeys | auto_stack.py:197-202 | the `assets` dict has key `id` if and only if `id` is truthy and is the id of some row |
| Assets.IndexLastRow | auto_stack.py:198-202 | the asset stored for an id is built from the last row with that id |
| Assets.IndexedAssetsWellFormed | auto_stack.py:198-201 | every stored asset has a truthy key, holds that key as its `asset.id`, and carries the metadata folded for that id |
| Assets.Ingest | auto_stack.py:187-202 | ingestion fails if and only if a contributing row lacks one of the four metadata columns; the failure is the KeyError of the first such row in input order, for one of the four columns |
| Assets.IngestKeys | auto_stack.py:187-202 | on success the result's keys are exactly the truthy `asset.id` values of the input rows |
| Assets.IngestAssetsCarryIds | auto_stack.py:198-202 | no row with a missing or falsy id reaches the result: each asset sits under a truthy id, holds that id as `asset.id`, and carries that id's folded metadata |
| Assets.IngestLastRow | auto_stack.py:188-202 | the asset for an id has the stripped columns of the last input row with that id and the metadata folded over all rows with that id |
| Assets.IngestMetadataKeys | auto_stack.py:187-201 | an ingested asset's metadata has key `k` if and only if some row with that id carries key `k` and a truthy value, whichever row the asset came from |
| Assets.IngestMetadataLastWins | auto_stack.py:188-201 | when no contributing row lacks a metadata column, ingestion succeeds and the last contributing row for an asset and key gives that key's value in the asset's metadata |
| FetchRetry.FetchFrom | auto_stack.py:172-185 | from attempt `made` on, the loop stops at the first attempt that is not an OperationalError, with that attempt's rows or exception, having made at most three attempts; it ends without rows exactly when every remaining attempt is an OperationalError |
| FetchRetry.Fetch | auto_stack.py:172-185 | the first attempt that is not an OperationalError decides the outcome and the attempt count; three OperationalErrors end the loop without rows |
| AutoStack.DecodeAll | auto_stack.py:178 | decodes every fetched tuple, one row per tuple in order; every tuple with all 66 selected columns becomes a row holding the four `asset_metadata` columns |
| AutoStack.Stack | auto_stack.py:172-202 | `stack()` raises UnboundLocalError for `res` exactly when all three attempts fail with OperationalError, re-raises the first non-operational exception, and otherwise ingests the decoded rows of the first success |
| AutoStack.FullRowHasMetadataColumns | auto_stack.py:10-77 | a tuple with all 66 selected columns decodes to a row that holds the four metadata columns |
| AutoStack.FullRowsIngest | auto_stack.py:178-195 | rows with all 66 columns, as the query returns them, never make the metadata deletions raise KeyError |

## Left out

- The connection pool, cursors and SQL execution (lines 163-177) are I/O through psycopg. The model replaces them with one given outcome per attempt.
- The query's filtering, ordering and `limit 1000` (lines 79-158) are done by the database, not by the script.
- Reading `./.latest` and substituting it for `'epoch'` in the query (lines 166-170) is file I/O and text editing of SQL.
- The environment variables, the connection string, asyncio (lines 207-212) and the final `print` (line 204) are I/O.
- FetchRetry.Fetch: requires an outcome for each of the three attempts. The database decides these, so the sequence describes the environment rather than a demand on callers.
- FetchRetry.Fetch: `async with pool.connection()` sits outside the `try`. An OperationalError while acquiring or releasing a connection therefore propagates instead of being retried. The model's attempt outcome covers only the execute and fetch inside the `try`.
- Ids and metadata keys are compared with structural `Value` equality. Python would also treat `True` and `1` as the same dict key. Ids are uuids and keys are text, so this does not arise.
- Python raises TypeError for an unhashable id or key. The model assumes every id and key is hashable, as uuid and text values are.
- Python dicts keep insertion order. The model's maps are unordered, so the print order of `assets` is not modelled.
- Python shares one metadata dict between all rows with the same id. The model copies it by value. Nothing mutates it after the first loop (lines 188-195), so the result is the same.
- Clustering of assets into stacks, committing stacks and writing a checkpoint do not occur in `auto_stack.py`, so they are not modelled.
