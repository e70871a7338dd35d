/**
 * `src/app/api/auth/verify/route.ts`: signing in to a group. The code must be five decimal
 * digits; the group exists when the spreadsheet has a sheet `Group_<code>`. The route only reads.
 */
module VerifyRoute {
  import opened Wrappers
  import opened Gateway
  import opened Http
  import Strings
  import MatchRoute

  const InvalidCodeFormat: string := "Invalid code format"
  const InvalidGroupCode: string := "Invalid group code"
  const InternalError: string := "Internal server error"

  /**
   * The text the pattern test sees: the `code` of the body converted to a string, so a missing
   * `code` is tested as `"undefined"`.
   */
  function TestedText(code: Option<string>): (t: string)
    ensures code.Some? ==> t == code.value
    ensures code.None? ==> !Strings.IsDigitCode(t)
  {
    match code
    case Some(c) => c
    case None => "undefined"
  }

  /**
   * `POST /api/auth/verify`, given the request's `code` and the spreadsheet; call 0, the
   * spreadsheet read, throws when it is in `failing`.
   */
  function Post(code: Option<string>, ss: Spreadsheet, failing: set<nat>): (resp: Response)
    ensures !(code.Some? && Strings.IsDigitCode(code.value)) <==> resp == BadRequest(InvalidCodeFormat)
    ensures resp.status == 200 <==>
              code.Some? && Strings.IsDigitCode(code.value) && 0 !in failing && MatchRoute.GroupSheet(code.value) in ss
    ensures resp.status == 200 ==> resp.body == Ok
    ensures resp.status == 404 <==>
              code.Some? && Strings.IsDigitCode(code.value) && 0 !in failing && MatchRoute.GroupSheet(code.value) !in ss
    ensures resp.status == 404 ==> resp.body == Error(InvalidGroupCode)
    ensures resp.status == 500 <==> code.Some? && Strings.IsDigitCode(code.value) && 0 in failing
    ensures resp.status == 500 ==> resp.body == Error(InternalError)
  {
    var text := TestedText(code);
    if !Strings.IsDigitCode(text) then BadRequest(InvalidCodeFormat)
    else
      match Call(ss, failing, 0, GetSpreadsheet)
      case None => Response(500, Error(InternalError))
      case Some((reply, _)) =>
        if reply.SheetTitles? && MatchRoute.GroupSheet(text) in reply.titles
        then Response(200, Ok)
        else Response(404, Error(InvalidGroupCode))
  }
}
