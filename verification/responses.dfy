/** The response objects the servers hand to `json.dumps`: a dict with a
    `status` and further named fields, an empty dict, or Python's `None`. */
module Responses {

  datatype Status = OK | ERROR

  /** The JSON values that occur in responses: text, integers (the
      counters), and a listing of file names (its order is the file
      system's and is not modelled). */
  datatype Value = Str(s: string) | Int(n: int) | Names(names: set<string>)

  /** `Null` is `None`; `EmptyDict` is `{}`, the placeholder a handler
      sends when an exception escapes before any response was built. */
  datatype Reply =
    | Null
    | EmptyDict
    | Reply(status: Status, fields: map<string, Value>)
  {
    predicate IsOk() {
      Reply? && status == OK
    }

    predicate IsError() {
      Reply? && status == ERROR
    }
  }

  /** `{'status': 'ERROR', key: text}`. */
  function ErrorReply(key: string, text: string): Reply {
    Reply(ERROR, map[key := Str(text)])
  }

  /** `{'status': 'OK', key: text}`. */
  function OkReply(key: string, text: string): Reply {
    Reply(OK, map[key := Str(text)])
  }
}
