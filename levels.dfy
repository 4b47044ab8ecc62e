/** classify_level: the fixed font-size thresholds that turn a line's largest
    font size into a heading level (main.py:34-42). */
module Levels {
  import opened Wrappers

  datatype Level = H1 | H2 | H3

  /** A size must exceed this to get any level. */
  const LevelFloor: real := 11.0

  /** The first threshold the size exceeds decides the level; a size of 11 or
      less gets none. Each level covers a half-open band of sizes. */
  function ClassifyLevel(size: real): (r: Option<Level>)
    ensures r == Some(H1) <==> size > 16.0
    ensures r == Some(H2) <==> 13.0 < size <= 16.0
    ensures r == Some(H3) <==> 11.0 < size <= 13.0
    ensures r == None <==> size <= 11.0
  {
    if size > 16.0 then Some(H1)
    else if size > 13.0 then Some(H2)
    else if size > LevelFloor then Some(H3)
    else None
  }
}
