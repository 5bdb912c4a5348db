/**
  Lookup in the static name tables of maple_utils.c. Those tables are arrays of
  C strings with NULL gaps, modelled as sequences of optional strings.
*/
module NameTables {
  import opened Wrappers

  /** The first index that holds `name`, or |table| when there is none. */
  function Find(table: seq<Option<string>>, name: string): (j: nat)
    ensures j <= |table|
    ensures j < |table| ==> table[j] == Some(name)
    ensures Some(name) !in table[..j]
  {
    if table == [] then 0
    else if table[0] == Some(name) then 0
    else
      var j' := Find(table[1..], name);
      assert table[..j' + 1] == [table[0]] + table[1..][..j'];
      1 + j'
  }
}
