# Serial and pooled shapefile loading, and pooled squares

This project models the sequence logic of three teaching scripts. The scripts
square the integers 1 to 10 with a list comprehension and with a process
pool. They also load a directory of census-tract shapefiles, once serially and
once through a process pool, and concatenate the loaded tables.

The model covers three parts:

- **The `.shp` filter.** A directory listing is cut down to the names whose
  Python slice `x[-4:]` equals `".shp"`. The serial script does this with a
  comprehension and again with an "equivalent" append loop. The parallel
  script does it with each kept name joined onto the directory.
- **Ordered loading and concatenation.** Each path becomes one table, in list
  order, and `pd.concat` joins them row-wise. The serial script uses an
  accumulation loop; the parallel one uses `Pool.map`. The serial script then
  adds a `COUNTYFIPS` column: state FIPS code followed by county FIPS code.
- **Squares.** The integers of `list(range(1, 11))` are squared twice. A
  comprehension computes `x**2` inline. `Pool.map` applies `square_integer`,
  which is `x**2`.

Modules:

- `Python`: the built-ins whose semantics matter. These are `s[start:]` with clamping, `x ** n` and `range`.
- `Paths`: `os.path.join` for two components, by the POSIX rule.
- `Pool`: `Pool.map` as an order-preserving map.
- `Tables`: `pd.concat` as flatten. An empty list of tables is an error, as in pandas.
- `Tracts`: a tract row, reduced to the columns the scripts use.
- `ShpFilter`: the suffix test and the filtering comprehension, with lemmas about them.
- `ComputeSquares`, `ImportShapefilesSerial`, `ImportShapefilesParallel`: one module per script.

The two loops of the serial script are methods with loop invariants. They are
proved equal to the specification functions. Everything else in the scripts
is a comprehension or a library call, so it is a function.

`gpd.read_file` is a parameter `read: string -> Table`. The directory
listing is a parameter `listing: seq<string>`.

Two edge cases are decided by the code rather than by any stated design:

- An empty directory (or one with no `.shp` file) leaves an empty list for
  `pd.concat`, and pandas raises `ValueError` ("No objects to concatenate").
  `Tables.Concat` returns `Failure(NoObjectsToConcatenate)` in that case.
- The test is the four-character slice `x[-4:]`, not a general suffix test.
  For the four-character suffix `.shp` the two agree, and both are case-sensitive.

## Model

| member | source | states |
|---|---|---|
| Python.SliceFrom | import_shapefiles_serial.py:137 | `s[start:]` is a suffix of s; for a negative start its length is the smaller of -start and \|s\|, so a name shorter than 4 gives the whole name |
| Python.PowTwo | compute_squares.py:59 | `x**2` equals x*x and is nonnegative |
| Python.Range | compute_squares.py:68 | `range(lo, hi)` has max(hi-lo, 0) elements and element i is lo+i |
| Paths.Join | import_shapefiles_serial.py:164 | the joined path ends with the file name; an absolute name replaces the directory; otherwise the directory comes first, followed by one '/' exactly when it is non-empty and does not already end with '/' |
| Pool.Map | compute_squares.py:78-79 | the pooled result has one entry per input, and entry i is f(input i), in input order |
| Tables.Flatten | import_shapefiles_serial.py:176-177 | the concatenated row count is the sum of the tables' row counts |
| Tables.Concat | import_shapefiles_serial.py:176 | concatenation fails exactly on an empty list of tables; otherwise it gives the row-wise union |
| Tables.FlattenAppend | import_shapefiles_serial.py:176 | concatenating two lists of tables concatenates their rows |
| Tables.FlattenBlockOrder | import_shapefiles_serial.py:176-177 | row j of table i lands after all rows of tables 0..i-1, so the rows come in block order |
| Tables.FlattenMembership | import_shapefiles_serial.py:176 | a row is in the result iff it is in one of the tables: nothing added, nothing lost |
| Tables.ThreeTablesRowCount | import_shapefiles_serial.py:176-177 | tables of 3, 5 and 2 rows concatenate to their 10 rows in block order |
| ShpFilter.IsShp | import_shapefiles_serial.py:137 | a name passes `x[-4:] == '.shp'` iff it has at least 4 characters and its last four are exactly ".shp" |
| ShpFilter.ShpExamples | import_shapefiles_serial.py:137 | "tl_2017_53_tract.shp" passes; the same name ending in ".shx" or in the upper-case ".SHP" does not, and neither do "shp" and "" |
| ShpFilter.Filter | import_shapefiles_serial.py:137 | the filtered list is no longer than the listing |
| ShpFilter.FilterMembership | import_shapefiles_serial.py:137 | a name is in the filtered list iff it is in the listing and passes the test |
| ShpFilter.KeptIndices | import_shapefiles_serial.py:137 | the kept positions are strictly increasing, each within the listing and passing, and every passing position is among them |
| ShpFilter.FilterIsSubsequence | import_shapefiles_serial.py:137 | the filtered list is the listing read at the kept positions, so it keeps relative order and adds nothing |
| ShpFilter.FilterSnoc | import_shapefiles_serial.py:140-143 | one more name at the end of the listing adds that name at the end of the result iff it passes |
| ShpFilter.FilterIdempotent | import_shapefiles_serial.py:140-146 | filtering the filtered list changes nothing |
| ShpFilter.FilterExample | import_shapefiles_serial.py:137 | the listing a.shp, a.dbf, b.shp, c.txt filters to exactly a.shp, b.shp |
| ImportShapefilesSerial.FilterLoop | import_shapefiles_serial.py:139-143 | the append loop builds exactly the list the comprehension builds |
| ImportShapefilesSerial.LoadAll | import_shapefiles_serial.py:158-173 | the loop builds one table per name, and table i is the file at the directory joined with name i |
| ImportShapefilesSerial.ImportSerial | import_shapefiles_serial.py:137-176 | the script ends with the filtered listing, one table per kept name in order, and their concatenation, which fails iff no name is kept |
| ImportShapefilesSerial.CountyFips | import_shapefiles_serial.py:191 | the county identifier has the state code as prefix and the county code as the rest, so its length is the sum of both |
| ImportShapefilesSerial.WithCountyFips | import_shapefiles_serial.py:191 | every row gets the identifier of its own codes; row count, order and other columns are unchanged |
| ComputeSquares.SquareInteger | compute_squares.py:53-59 | `square_integer(x)` is x*x and nonnegative |
| ComputeSquares.IntegerList | compute_squares.py:68 | `integer_list` is 1, 2, ..., 10 |
| ComputeSquares.SquareList | compute_squares.py:72 | the comprehension has the input's length, and element i is the square of input i, which is nonnegative |
| ComputeSquares.PooledSquareList | compute_squares.py:78-79 | the pooled result has one entry per input, entry i is `square_integer(input i)`, and for every input list it equals the comprehension |
| ComputeSquares.SquaresOfLiteralOneToTen | compute_squares.py:72 | the comprehension over 1, 2, ..., 10 gives 1, 4, 9, 16, 25, 36, 49, 64, 81, 100 |
| ComputeSquares.SquaresOfOneToTen | compute_squares.py:68-81 | both results are 1, 4, 9, 16, 25, 36, 49, 64, 81, 100 |
| ImportShapefilesParallel.GetSfileList | intro_to_parallelization/import_shapefiles_parallel.py:23-33 | one path per name the filter keeps, no more than the listing length; path k is the directory joined with the k-th kept name |
| ImportShapefilesParallel.GetSfileListFromListing | intro_to_parallelization/import_shapefiles_parallel.py:30-31 | path k is the directory joined with the listing entry at the k-th kept position; the positions increase and include every `.shp` entry, and each path passes the `.shp` test |
| ImportShapefilesParallel.JoinKeepsShp | intro_to_parallelization/import_shapefiles_parallel.py:31 | joining a `.shp` name onto any directory gives a path that passes the test |
| ImportShapefilesParallel.GatherSfiles | intro_to_parallelization/import_shapefiles_parallel.py:36-62 | the gathered table fails exactly when there is no path; otherwise its row count is the sum of the files' row counts, zero-row files included |
| ImportShapefilesParallel.GatherSfilesRows | intro_to_parallelization/import_shapefiles_parallel.py:47-52 | row j of file i sits after the rows of all earlier files, so the rows come in path order |
| ImportShapefilesParallel.GatherSfilesEmpty | intro_to_parallelization/import_shapefiles_parallel.py:51 | with no paths the concatenation fails |
| ImportShapefilesParallel.SerialMatchesParallel | intro_to_parallelization/import_shapefiles_parallel.py:47-51 | for the same directory and listing, the pooled result equals the concatenation of the table list the serial loop builds, failure included |

## Left out

- Directory listing (`os.listdir`): it is filesystem I/O. The listing is an input sequence, so `NotFoundError` and `PermissionError` are not modelled.
- Reading shapefiles (`gpd.read_file`): it is a foreign library. It is the total parameter `read`, so a file that fails to load (`FormatError`) is not modelled, nor is the failure of a pooled batch.
- Process management: spawning the pool, scheduling workers, the `processes=8` size, the `with` teardown and the `if __name__ == '__main__'` guard. These are concurrency and process management. Only the ordered result of `Pool.map` is modelled.
- Timing: `time.time()`, the elapsed-time arithmetic and `round(...)` work on wall-clock floats.
- Other path rules: `os.path.normpath` and the Windows form of `os.path.join` are OS-specific normalisation. Only the POSIX rule for two components is modelled.
- Paths.Join: does not model that a Windows join would treat a drive letter specially, because the model fixes the POSIX rule.
- Table internals: the pandas row index that `pd.concat` keeps and schema reconciliation belong to the library.
- Row columns: `Row` keeps only STATEFP, COUNTYFP, GEOID and the derived COUNTYFIPS. The geometry and every other attribute column of a tract file are dropped, because no modelled line reads them.
- Statistics: `unique().tolist()`, `groupby(...).agg(np.size)` and `.describe()` (import_shapefiles_serial.py:99-106, 192-199) are library aggregation and float summaries.
- The single-file demonstration at import_shapefiles_serial.py:62-106: it is one `read_file` call followed by printing and statistics.
- Output and cleanup: all `print` output and the `del` statements.
