/**
 * intro_to_parallelization/import_shapefiles_parallel.py: build the list of
 * fully qualified `.shp` paths, read them through a process pool and
 * concatenate the tables.
 */
module ImportShapefilesParallel {

  import opened Results
  import Paths
  import Pool
  import Tables
  import opened Tracts
  import opened ShpFilter

  /** `get_sfile_list`: `[os.path.join(sfile_path, x) for x in listing if x[-4:] == '.shp']`. */
  function GetSfileList(sfilePath: string, listing: seq<string>): (sfileList: seq<string>)
    ensures |sfileList| == |Filter(listing)| <= |listing|
    ensures forall k :: 0 <= k < |sfileList| ==> sfileList[k] == Paths.Join(sfilePath, Filter(listing)[k])
  {
    if listing == [] then []
    else
      var n := |listing| - 1;
      GetSfileList(sfilePath, listing[..n])
        + (if IsShp(listing[n]) then [Paths.Join(sfilePath, listing[n])] else [])
  }

  /**
   * Path k is the directory joined with the entry of the listing at the k-th
   * kept position, the positions increasing, so every `.shp` entry appears in
   * listing order; and every path itself ends in ".shp".
   */
  lemma {:induction false} GetSfileListFromListing(sfilePath: string, listing: seq<string>)
    ensures |GetSfileList(sfilePath, listing)| == |KeptIndices(listing)|
    ensures forall k :: 0 <= k < |KeptIndices(listing)| ==>
      GetSfileList(sfilePath, listing)[k] == Paths.Join(sfilePath, listing[KeptIndices(listing)[k]])
    ensures forall k :: 0 <= k < |KeptIndices(listing)| ==> IsShp(GetSfileList(sfilePath, listing)[k])
  {
    FilterIsSubsequence(listing);
    forall k | 0 <= k < |KeptIndices(listing)|
      ensures IsShp(GetSfileList(sfilePath, listing)[k])
    {
      JoinKeepsShp(sfilePath, listing[KeptIndices(listing)[k]]);
    }
  }

  /** Joining a `.shp` name onto a directory gives a path that passes the same test. */
  lemma JoinKeepsShp(dir: string, name: string)
    requires IsShp(name)
    ensures IsShp(Paths.Join(dir, name))
  {
    var p := Paths.Join(dir, name);
    assert p[|p| - 4..] == p[|p| - |name|..][|name| - 4..];
  }

  /**
   * `gather_sfiles`: `pd.concat(p.map(gpd.read_file, sfile_list))`. It fails
   * exactly when there is no path; otherwise its row count is the sum of the
   * files' row counts, zero-row files included.
   */
  function GatherSfiles(sfileList: seq<string>, read: string -> Table): (gdf: Result<Table, Tables.ConcatError>)
    ensures gdf.Failure? <==> sfileList == []
    ensures gdf.Success? ==> |gdf.value| == Tables.TotalRows(Pool.Map(read, sfileList))
  {
    Tables.Concat(Pool.Map(read, sfileList))
  }

  /**
   * Block order of the gathered table: row j of file i comes after the rows
   * of all earlier files.
   */
  lemma GatherSfilesRows(sfileList: seq<string>, read: string -> Table, i: nat, j: nat)
    requires i < |sfileList| && j < |read(sfileList[i])|
    ensures GatherSfiles(sfileList, read).Success?
    ensures Tables.TotalRows(Pool.Map(read, sfileList[..i])) + j < |GatherSfiles(sfileList, read).value|
    ensures GatherSfiles(sfileList, read).value[Tables.TotalRows(Pool.Map(read, sfileList[..i])) + j]
            == read(sfileList[i])[j]
  {
    var tables := Pool.Map(read, sfileList);
    Tables.FlattenBlockOrder(tables, i, j);
    assert tables[..i] == Pool.Map(read, sfileList[..i]);
  }

  /** With no `.shp` file in the directory, `pd.concat` has nothing to concatenate. */
  lemma GatherSfilesEmpty(read: string -> Table)
    ensures GatherSfiles([], read) == Failure(Tables.NoObjectsToConcatenate)
  {
  }

  /**
   * The parallel loader and the serial one agree: for the same directory and
   * listing, any table list the serial loop can build concatenates to the
   * same result as the pooled map, failure included.
   */
  lemma {:induction false} SerialMatchesParallel(sfilePath: string, listing: seq<string>, read: string -> Table, gdfList: seq<Table>)
    requires |gdfList| == |Filter(listing)|
    requires forall i :: 0 <= i < |gdfList| ==> gdfList[i] == read(Paths.Join(sfilePath, Filter(listing)[i]))
    ensures GatherSfiles(GetSfileList(sfilePath, listing), read) == Tables.Concat(gdfList)
  {
    assert Pool.Map(read, GetSfileList(sfilePath, listing)) == gdfList;
  }
}
