/** The outcome of a route handler: the HTTP status and the JSON body `NextResponse.json` sends. */
module Http {

  datatype Body =
    | Ok                                // { success: true }
    | GroupCreated(groupCode: string)   // { success: true, groupCode, message: 'Group created successfully' }
    | Error(message: string)            // { error: message }

  datatype Response = Response(status: nat, body: Body)

  function BadRequest(message: string): Response { Response(400, Error(message)) }
}
