/**
 * One row of a TIGER/Line census-tract shapefile, reduced to the attribute
 * columns the scripts use. `countyfips` is the column the serial script adds
 * after concatenation; a freshly read row need not carry it.
 */
module Tracts {

  import opened Results

  datatype Row = Row(statefp: string, countyfp: string, geoid: string, countyfips: Option<string>)

  type Table = seq<Row>
}
