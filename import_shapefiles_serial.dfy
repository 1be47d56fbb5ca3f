/**
 * import_shapefiles_serial.py: prune a directory listing to its `.shp` files,
 * load them one after another, concatenate the tables and derive the county
 * identifier.
 */
module ImportShapefilesSerial {

  import opened Results
  import Paths
  import Tables
  import opened Tracts
  import opened ShpFilter

  /** The append loop the script offers as equivalent to the comprehension. */
  method FilterLoop(sfileList: seq<string>) returns (outputList: seq<string>)
    ensures outputList == Filter(sfileList)
  {
    outputList := [];
    for i := 0 to |sfileList|
      invariant outputList == Filter(sfileList[..i])
    {
      var x := sfileList[i];
      assert sfileList[..i + 1][..i] == sfileList[..i];
      if IsShp(x) {
        outputList := outputList + [x];
      }
    }
    assert sfileList[..|sfileList|] == sfileList;
  }

  /** The loading loop: one table per name, read from the joined path, in list order. */
  method LoadAll(sfilePath: string, sfileList: seq<string>, read: string -> Table)
    returns (gdfList: seq<Table>)
    ensures |gdfList| == |sfileList|
    ensures forall i :: 0 <= i < |sfileList| ==> gdfList[i] == read(Paths.Join(sfilePath, sfileList[i]))
  {
    gdfList := [];
    for isfn := 0 to |sfileList|
      invariant |gdfList| == isfn
      invariant forall i :: 0 <= i < isfn ==> gdfList[i] == read(Paths.Join(sfilePath, sfileList[i]))
    {
      var sfilePn := Paths.Join(sfilePath, sfileList[isfn]);
      var gdf := read(sfilePn);
      gdfList := gdfList + [gdf];
    }
  }

  /**
   * The script from the directory listing to the concatenated table: the
   * comprehension, the equivalent loop run again on its result, the copy,
   * the loading loop and `pd.concat`.
   */
  method ImportSerial(sfilePath: string, listing: seq<string>, read: string -> Table)
    returns (sfileList: seq<string>, gdfList: seq<Table>, gdf: Result<Table, Tables.ConcatError>)
    ensures sfileList == Filter(listing)
    ensures |gdfList| == |sfileList|
    ensures forall i :: 0 <= i < |sfileList| ==> gdfList[i] == read(Paths.Join(sfilePath, sfileList[i]))
    ensures gdf.Failure? <==> sfileList == []
    ensures gdf.Success? ==> gdf.value == Tables.Flatten(gdfList)
  {
    sfileList := Filter(listing);
    var outputList := FilterLoop(sfileList);
    FilterIdempotent(listing);
    sfileList := outputList;
    gdfList := LoadAll(sfilePath, sfileList, read);
    gdf := Tables.Concat(gdfList);
  }

  /** The county identifier: state FIPS code followed by county FIPS code. */
  function CountyFips(row: Row): (fips: string)
    ensures |fips| == |row.statefp| + |row.countyfp|
    ensures fips[..|row.statefp|] == row.statefp
    ensures fips[|row.statefp|..] == row.countyfp
  {
    row.statefp + row.countyfp
  }

  /**
   * `gdf['COUNTYFIPS'] = gdf['STATEFP'] + gdf['COUNTYFP']`: the column is set
   * on every row; row count, row order and the other columns are unchanged.
   */
  function WithCountyFips(gdf: Table): (out: Table)
    ensures |out| == |gdf|
    ensures forall i :: 0 <= i < |gdf| ==>
      && out[i].statefp == gdf[i].statefp && out[i].countyfp == gdf[i].countyfp && out[i].geoid == gdf[i].geoid
      && out[i].countyfips == Some(CountyFips(gdf[i]))
  {
    seq(|gdf|, i requires 0 <= i < |gdf| => gdf[i].(countyfips := Some(CountyFips(gdf[i]))))
  }
}
