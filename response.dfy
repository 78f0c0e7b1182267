/** The envelope builders every controller and middleware uses for its bodies. */
module Response {
  import opened Wrappers
  import opened Json

  function ErrorBase(message: string, code: int): seq<Field> {
    [Field("status", JStr("error")), Field("message", JStr(message)), Field("code", JNum(code))]
  }

  /**
   * `errorResponse(message, code, data)`: the object literal
   * `{status: "error", message, code, ...data}`. The fields of `data` are
   * spread after the three defaults, so a field of `data` with one of their
   * names overrides it in place.
   */
  function ErrorResponse(message: string, code: int, data: seq<Field> := []): (r: Json)
    ensures r.JObj?
    ensures KeySet(r.fields) == {"status", "message", "code"} + KeySet(data)
    ensures DistinctKeys(r.fields)
  {
    var base := ErrorBase(message, code);
    assert KeySet(base) == {"status", "message", "code"} by {
      KeySetCons(base[0], base[1..]);
      KeySetCons(base[1], base[2..]);
      KeySetCons(base[2], base[3..]);
    }
    CollectKeys(base, data);
    JObj(Collect(ErrorBase(message, code), data))
  }

  /** Every field of an error envelope: the one from `data` if it has one, else the default. */
  lemma ErrorResponseField(message: string, code: int, data: seq<Field>, k: string)
    ensures Get(ErrorResponse(message, code, data).fields, k) ==
            if GetLast(data, k).Some? then GetLast(data, k)
            else if k == "status" then Some(JStr("error"))
            else if k == "message" then Some(JStr(message))
            else if k == "code" then Some(JNum(code))
            else None
  {
    CollectGet(ErrorBase(message, code), data, k);
  }

  /** With `data` defaulted, the envelope has exactly the three fields, in this order. */
  lemma ErrorResponseDefault(message: string, code: int)
    ensures ErrorResponse(message, code).fields ==
            [Field("status", JStr("error")), Field("message", JStr(message)), Field("code", JNum(code))]
  {
    CollectFresh(ErrorBase(message, code), []);
    assert ErrorBase(message, code) + [] == ErrorBase(message, code);
  }

  /**
   * `successResponse(message, data, code)`: `{status: "success", message, code, data}`;
   * `data` defaults to an empty object and `code` to 200.
   */
  function SuccessResponse(message: string, data: Json := JObj([]), code: int := 200): (r: Json)
    ensures r.JObj? && DistinctKeys(r.fields)
    ensures KeySet(r.fields) == {"status", "message", "code", "data"}
  {
    var r := JObj([Field("status", JStr("success")), Field("message", JStr(message)),
                   Field("code", JNum(code)), Field("data", data)]);
    assert KeySet(r.fields) == {"status", "message", "code", "data"} by {
      KeySetCons(r.fields[0], r.fields[1..]);
      KeySetCons(r.fields[1], r.fields[2..]);
      KeySetCons(r.fields[2], r.fields[3..]);
      KeySetCons(r.fields[3], r.fields[4..]);
    }
    r
  }

  /**
   * `data` is nested, never spread: whatever fields it has, the envelope's own
   * status stays "success" and `data` comes back whole under its own name.
   */
  lemma SuccessResponseNested(message: string, data: Json, code: int)
    ensures Get(SuccessResponse(message, data, code).fields, "status") == Some(JStr("success"))
    ensures Get(SuccessResponse(message, data, code).fields, "message") == Some(JStr(message))
    ensures Get(SuccessResponse(message, data, code).fields, "code") == Some(JNum(code))
    ensures Get(SuccessResponse(message, data, code).fields, "data") == Some(data)
  {
  }

  /** The defaults of `successResponse`. */
  lemma SuccessResponseDefaults(message: string)
    ensures SuccessResponse(message) == SuccessResponse(message, JObj([]), 200)
    ensures Get(SuccessResponse(message).fields, "code") == Some(JNum(200))
  {
  }
}
