/**
  Names of Maple response codes (maple_perror in maple_utils.c). The code is
  offset by 5 and used to index a 14-entry table whose slots 5..9 (codes 0..4)
  are NULL; codes outside the table give "UNKNOWN".
*/
module MapleResponse {
  import opened Wrappers
  import NameTables

  /**
    The response codes named by maple_resp_names. Their values come from the
    positions of the names in that table (the header that defines them is not
    part of this model).
  */
  const ResponseFileErr := -5
  const ResponseAgain := -4
  const ResponseBadCmd := -3
  const ResponseBadFunc := -2
  const ResponseNone := -1
  const ResponseDevInfo := 5
  const ResponseAllInfo := 6
  const ResponseOk := 7
  const ResponseDataTrf := 8

  /** The offset that maps the lowest response code to index 0. */
  const Offset := 5

  /** maple_resp_names. */
  const RespNames: seq<Option<string>> := [
    Some("EFILEERR"), Some("EAGAIN"), Some("EBADCMD"), Some("EBADFUNC"), Some("ENONE"),
    None, None, None, None, None,
    Some("DEVINFO"), Some("ALLINFO"), Some("OK"), Some("DATATRF")
  ]

  const Unknown := "UNKNOWN"

  /** The named codes, each with its name: the reference the table is checked against. */
  const CodeNames: map<int, string> := map[
    ResponseFileErr := "EFILEERR", ResponseAgain := "EAGAIN", ResponseBadCmd := "EBADCMD",
    ResponseBadFunc := "EBADFUNC", ResponseNone := "ENONE",
    ResponseDevInfo := "DEVINFO", ResponseAllInfo := "ALLINFO", ResponseOk := "OK",
    ResponseDataTrf := "DATATRF"
  ]

  /**
    maple_perror: the name of a response code. None stands for the NULL the
    source returns for codes 0..4.
  */
  function PError(response: int): (r: Option<string>)
    ensures response in CodeNames ==> r == Some(CodeNames[response])
    ensures 0 <= response <= 4 <==> r == None
    ensures response !in CodeNames && !(0 <= response <= 4) ==> r == Some(Unknown)
  {
    var index := response + Offset;
    if index < 0 || index >= |RespNames| then Some(Unknown) else RespNames[index]
  }

  /** The code a name stands for: the inverse of PError on the named codes. */
  function CodeOf(name: string): (r: Option<int>)
    ensures r.Some? ==> PError(r.value) == Some(name)
  {
    var index := NameTables.Find(RespNames, name);
    if index < |RespNames| then Some(index - Offset) else None
  }

  /** No two slots of maple_resp_names hold the same name. */
  lemma {:induction false} RespNamesDistinct(j: nat, index: nat)
    requires j < index < |RespNames| && RespNames[index].Some?
    ensures RespNames[j] != RespNames[index]
  {
    if index == 1 {} else if index == 2 {} else if index == 3 {} else if index == 4 {}
    else if index == 10 {} else if index == 11 {} else if index == 12 {} else if index == 13 {}
  }

  /** Each name occurs once in maple_resp_names, so looking it up finds its own slot. */
  lemma {:induction false} FindRespName(index: nat)
    requires index < |RespNames| && RespNames[index].Some?
    ensures NameTables.Find(RespNames, RespNames[index].value) == index
  {
    var j := NameTables.Find(RespNames, RespNames[index].value);
    if j < index {
      RespNamesDistinct(j, index);
    }
  }

  /** Every named code is recovered from its name. */
  lemma {:induction false} CodeOfPError(response: int)
    requires response in CodeNames
    ensures CodeOf(PError(response).value) == Some(response)
  {
    FindRespName(response + Offset);
  }

  /** "UNKNOWN" is not the name of any code, so it never hides a known code. */
  lemma {:induction false} UnknownIsNoName(response: int)
    ensures PError(response) == Some(Unknown) <==> response !in CodeNames && !(0 <= response <= 4)
  {
  }
}
