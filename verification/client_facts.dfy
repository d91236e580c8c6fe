/**
  What the request engine does in the situations the client is written
  for: the device's replies to login and logout, an expired session during
  an update, confirmations the device echoes, and the quirks of the enum
  setter.
 */
module ClientFacts {
  import opened Wrappers
  import opened Dict
  import opened Decimal
  import opened Text
  import opened Codec
  import opened Const
  import opened Endpoints
  import opened Client

  /** The single field of the device's reply to login and logout. */
  function ResultReply(prefix: string, result: string): Outcome {
    Reply(200, ReplyText(prefix, [("result", result)]))
  }

  /** A well-formed reply with a success status reads back as exactly its prefix and fields. */
  lemma AnswerOfReply(status: int, prefix: string, fields: seq<(string, string)>)
    requires status < 400
    requires '?' !in prefix && WellFormedFields(fields)
    ensures Answer(Reply(status, ReplyText(prefix, fields))) == Ok(Response(prefix, fields))
  {
    DecodeReply(prefix, fields);
  }

  /** The `result` field of a one-field login or logout reply. */
  lemma ResultReplyAnswer(prefix: string, result: string)
    requires '?' !in prefix
    requires result != [] && Trimmed(result) && ';' !in result
    ensures Answer(ResultReply(prefix, result)).Ok?
    ensures ResultField(Answer(ResultReply(prefix, result)).value) == Some(result)
  {
    var fields := [("result", result)];
    assert GoodField(fields[0]);
    AnswerOfReply(200, prefix, fields);
  }

  /** `login?result=ok;` then NUL logs in. */
  lemma LoginAccepted(c: Client, t: Transport)
    requires Nth(t.script, 0) == ResultReply("login", "ok")
    ensures Login(c, t).result == Ok(Response("login", [("result", "ok")]))
  {
    AnswerOfReply(200, "login", [("result", "ok")]);
  }

  /** `login?result=error;` then NUL means a wrong user name or password. */
  lemma LoginRefused(c: Client, t: Transport)
    requires Nth(t.script, 0) == ResultReply("login", "error")
    ensures Login(c, t).result == Err(AuthenticationError)
  {
    ResultReplyAnswer("login", "error");
  }

  /** A login that times out is a communication error. */
  lemma LoginTimedOut(c: Client, t: Transport)
    requires Nth(t.script, 0) == TimedOut
    ensures Login(c, t).result == Err(CommunicationError(Timeout))
  {
  }

  /** A login reply without a `result` field is neither success nor a wrong password. */
  lemma LoginWithoutResult(c: Client, t: Transport, fields: seq<(string, string)>)
    requires WellFormedFields(fields) && "result" !in Keys(fields)
    requires Nth(t.script, 0) == Reply(200, ReplyText("login", fields))
    ensures Login(c, t).result == Err(ClientError(UnexpectedLoginReply))
  {
    AnswerOfReply(200, "login", fields);
  }

  /** Logout succeeds on `result=ok` and fails on any other result. */
  lemma LogoutReplies(t: Transport, result: string)
    requires result != [] && Trimmed(result) && ';' !in result
    requires Nth(t.script, 0) == ResultReply("logout", result)
    ensures Logout(t).result.Ok? <==> result == "ok"
    ensures result != "ok" ==> Logout(t).result == Err(ClientError(UnexpectedLogoutReply))
  {
    ResultReplyAnswer("logout", result);
  }

  /**
    The request targets of login and logout: the credentials as `uid` and
    `pwd`, then the timestamp parameter, so a logout still carries one.
   */
  lemma LoginLogoutTargets(c: Client, timestamp: string)
    ensures RequestUrl(c.address, "login", LoginParams(c), timestamp)
         == c.address + "/login?uid=" + c.username + ";pwd=" + c.password + ";" + timestamp + "="
    ensures RequestUrl(c.address, "logout", [], timestamp) == c.address + "/logout?" + timestamp + "="
  {
    LoginTarget(c, timestamp);
    LogoutTarget(c, timestamp);
  }

  lemma LoginTarget(c: Client, timestamp: string)
    ensures RequestUrl(c.address, "login", LoginParams(c), timestamp)
         == c.address + "/login?uid=" + c.username + ";pwd=" + c.password + ";" + timestamp + "="
  {
    UrlOfTwo(c.address, "login", "uid=" + c.username, "pwd=" + c.password, timestamp);
    assert c.address + "/" + "login" + "?" + ("uid=" + c.username) + ";" + ("pwd=" + c.password) + ";" + timestamp + "="
        == c.address + "/login?uid=" + c.username + ";pwd=" + c.password + ";" + timestamp + "=";
  }

  lemma LogoutTarget(c: Client, timestamp: string)
    ensures RequestUrl(c.address, "logout", [], timestamp) == c.address + "/logout?" + timestamp + "="
  {
    UrlOfNone(c.address, "logout", timestamp);
    assert c.address + "/" + "logout" + "?" + timestamp + "=" == c.address + "/logout?" + timestamp + "=";
  }

  /** A target with two parameters: `address/path?p1;p2;timestamp=`. */
  lemma UrlOfTwo(address: string, path: string, p1: string, p2: string, timestamp: string)
    ensures RequestUrl(address, path, [p1, p2], timestamp) == address + "/" + path + "?" + p1 + ";" + p2 + ";" + timestamp + "="
  {
    var all := [p1, p2] + [timestamp + "="];
    assert all[1..][1..] == [timestamp + "="];
    assert Join(all[1..][1..], ';') == timestamp + "=";
    assert Join(all[1..], ';') == p2 + ";" + (timestamp + "=");
    assert Join(all, ';') == p1 + ";" + (p2 + ";" + (timestamp + "="));
  }

  /** A target without parameters still carries the timestamp: `address/path?timestamp=`. */
  lemma UrlOfNone(address: string, path: string, timestamp: string)
    ensures RequestUrl(address, path, [], timestamp) == address + "/" + path + "?" + timestamp + "="
  {
    assert [] + [timestamp + "="] == [timestamp + "="];
    assert Join([timestamp + "="], ';') == timestamp + "=";
  }

  /** An update whose first reply succeeds, or fails otherwise than with 404, issues no further request. */
  lemma NoRetryWithoutNotFound(c: Client, t: Transport, kvs: Dict<string, string>)
    requires !(Nth(t.script, 0).Reply? && Nth(t.script, 0).status == 404)
    ensures Consumed(t, UpdateValues(c, t, kvs).transport, 1)
    ensures !Nth(t.script, 0).Reply? ==> UpdateValues(c, t, kvs).result == Answer(Nth(t.script, 0))
    ensures Nth(t.script, 0).Reply? && Nth(t.script, 0).status >= 400 ==>
      UpdateValues(c, t, kvs).result == Err(Unbound("response"))
  {
  }

  /**
    An expired session: the update meets 404, the client logs in, and the
    repeated update is answered; three requests in all, and the answer to
    the repeat is the result.
   */
  lemma ExpiredSessionRenewed(c: Client, t: Transport, kvs: Dict<string, string>)
    requires Nth(t.script, 0).Reply? && Nth(t.script, 0).status == 404
    requires Nth(t.script, 1) == ResultReply("login", "ok")
    ensures UpdateValues(c, t, kvs).result == Answer(Nth(t.script, 2))
    ensures Consumed(t, UpdateValues(c, t, kvs).transport, 3)
  {
    ResultReplyAnswer("login", "ok");
    assert NotFound(Answer(Nth(t.script, 0)));
  }

  /** The requests of a renewed update: the update, the login, the same update again. */
  lemma ExpiredSessionCalls(c: Client, t: Transport, kvs: Dict<string, string>)
    requires Nth(t.script, 0).Reply? && Nth(t.script, 0).status == 404
    requires Nth(t.script, 1) == ResultReply("login", "ok")
    ensures var s := UpdateValues(c, t, kvs);
      && |s.transport.sent| == |t.sent| + 3
      && IssuedAt(t, s.transport, 0) == Call("update", UpdateParams(kvs))
      && IssuedAt(t, s.transport, 1) == Call("login", LoginParams(c))
      && IssuedAt(t, s.transport, 2) == Call("update", UpdateParams(kvs))
  {
    ResultReplyAnswer("login", "ok");
    assert NotFound(Answer(Nth(t.script, 0)));
    RenewedCalls(c, t, kvs);
  }

  /** Whenever the first answer is 404 and the login succeeds, the update is sent, then the login, then the update. */
  lemma RenewedCalls(c: Client, t: Transport, kvs: Dict<string, string>)
    requires NotFound(Answer(Nth(t.script, 0)))
    requires LoginVerdict(Answer(Nth(t.script, 1))).Ok?
    ensures var s := UpdateValues(c, t, kvs);
      && |s.transport.sent| == |t.sent| + 3
      && IssuedAt(t, s.transport, 0) == Call("update", UpdateParams(kvs))
      && IssuedAt(t, s.transport, 1) == Call("login", LoginParams(c))
      && IssuedAt(t, s.transport, 2) == Call("update", UpdateParams(kvs))
  {
  }

  /** The retry is the last attempt: a second 404 is the final answer, after exactly three requests. */
  lemma NoSecondRetry(c: Client, t: Transport, kvs: Dict<string, string>)
    requires Nth(t.script, 0).Reply? && Nth(t.script, 0).status == 404
    requires Nth(t.script, 1) == ResultReply("login", "ok")
    requires Nth(t.script, 2).Reply? && Nth(t.script, 2).status == 404
    ensures UpdateValues(c, t, kvs).result == Err(CommunicationError(HttpStatus(404)))
    ensures Consumed(t, UpdateValues(c, t, kvs).transport, 3)
  {
    ResultReplyAnswer("login", "ok");
  }

  /** A login refused during the renewal ends the update without a retry. */
  lemma RenewalRefused(c: Client, t: Transport, kvs: Dict<string, string>)
    requires Nth(t.script, 0).Reply? && Nth(t.script, 0).status == 404
    requires Nth(t.script, 1) == ResultReply("login", "error")
    ensures UpdateValues(c, t, kvs).result == Err(AuthenticationError)
    ensures Consumed(t, UpdateValues(c, t, kvs).transport, 2)
  {
    ResultReplyAnswer("login", "error");
  }

  /** `str` of an integer is a trimmed field value without separators. */
  lemma IntTextGood(n: int)
    ensures Trimmed(IntToString(n)) && ';' !in IntToString(n) && '=' !in IntToString(n)
  {
    var s := IntToString(n);
    var digits := NatToString(if n < 0 then -n else n);
    assert forall i :: 0 <= i < |digits| ==> IsDigit(digits[i]);
    assert forall i :: 0 <= i < |s| ==> IsDigit(s[i]) || s[i] == '-' by {
      if n < 0 {
        assert forall i :: 1 <= i < |s| ==> s[i] == digits[i - 1];
      }
    }
  }

  /** A key the device can echo: non-empty, trimmed, without separators. */
  predicate EchoKey(id: string) {
    id != [] && Trimmed(id) && '=' !in id && ';' !in id
  }

  /**
    The int setter's round trip: when the device echoes the written text
    under the sensor id and `float` reads decimal text faithfully, the write
    is confirmed after a single request.
   */
  lemma EchoConfirmsInt(c: Client, t: Transport, e: Endpoint, value: int, num: Numerics)
    requires e.IntControl? && e.minInt <= value <= e.maxInt && EchoKey(e.sensorId)
    requires Nth(t.script, 0) == Reply(200, ReplyText("update", [(e.sensorId, IntToString(value))]))
    requires num.parse(IntToString(value)) == Some(value as real)
    ensures SetInt(c, t, e, value, num).result.Ok?
    ensures Consumed(t, SetInt(c, t, e, value, num).transport, 1)
  {
    IntTextGood(value);
    var fields := [(e.sensorId, IntToString(value))];
    assert GoodField(fields[0]);
    AnswerOfReply(200, "update", fields);
  }

  /** An echo of a different integer is a mismatch, whatever the control. */
  lemma OtherEchoRefused(c: Client, t: Transport, e: Endpoint, value: int, echoed: int, num: Numerics)
    requires e.IntControl? && e.minInt <= value <= e.maxInt && EchoKey(e.sensorId) && echoed != value
    requires Nth(t.script, 0) == Reply(200, ReplyText("update", [(e.sensorId, IntToString(echoed))]))
    requires num.parse(IntToString(echoed)) == Some(echoed as real)
    ensures SetInt(c, t, e, value, num).result == Err(ClientError(ValueMismatch))
  {
    IntTextGood(echoed);
    var fields := [(e.sensorId, IntToString(echoed))];
    assert GoodField(fields[0]);
    AnswerOfReply(200, "update", fields);
  }

  /** The one call an in-range int write starts with. */
  lemma IntFirstCall(c: Client, t: Transport, e: Endpoint, value: int, num: Numerics)
    requires e.IntControl? && e.minInt <= value <= e.maxInt
    ensures |SetInt(c, t, e, value, num).transport.sent| > |t.sent|
    ensures IssuedAt(t, SetInt(c, t, e, value, num).transport, 0) == Call("update", [e.controlId + "=" + IntToString(value)])
  {
  }

  /** The one call an in-range float write starts with. */
  lemma FloatFirstCall(c: Client, t: Transport, e: Endpoint, value: real, num: Numerics)
    requires e.FloatControl? && e.minReal <= value <= e.maxReal
    ensures |SetFloat(c, t, e, value, num).transport.sent| > |t.sent|
    ensures IssuedAt(t, SetFloat(c, t, e, value, num).transport, 0)
         == Call("update", [e.controlId + "=" + num.show(num.round1(value))])
  {
  }

  /** The decimal text of 45. */
  lemma FortyFive()
    ensures IntToString(45) == "45"
  {
    assert NatToString(45) == NatToString(4) + [DigitChar(5)];
  }

  /** The first call of an in-range int write, named by its one parameter. */
  lemma IntWriteParam(c: Client, t: Transport, e: Endpoint, value: int, num: Numerics, param: string)
    requires e.IntControl? && e.minInt <= value <= e.maxInt
    requires e.controlId + "=" + IntToString(value) == param
    ensures IssuedAt(t, SetInt(c, t, e, value, num).transport, 0) == Call("update", [param])
  {
    IntFirstCall(c, t, e, value, num);
  }

  /** The curve controls write to the `@_` id but are confirmed under the plain sensor id. */
  lemma CurveWrite(c: Client, t: Transport, num: Numerics)
    ensures IssuedAt(t, SetInt(c, t, L1CurveMinus20Temp, 45, num).transport, 0) == Call("update", ["@_S_61_85=45"])
  {
    FortyFive();
    var e := L1CurveMinus20Temp;
    assert e.controlId + "=" + IntToString(45) == "@_S_61_85=45" by {
      assert e.controlId == "@_S_61_85";
      assert "@_S_61_85" + "=" + "45" == "@_S_61_85=45";
    }
    IntWriteParam(c, t, e, 45, num, "@_S_61_85=45");
  }

  /** An out-of-range curve temperature sends nothing. */
  lemma CurveOutOfRange(c: Client, t: Transport, num: Numerics)
    ensures SetInt(c, t, L1CurveMinus20Temp, 100, num) == Step(Err(OutOfBounds), t)
    ensures SetInt(c, t, L1CurveMinus20Temp, -1, num) == Step(Err(OutOfBounds), t)
  {
  }

  /** The float setter writes the rounded value. */
  lemma FineTuningRounds(c: Client, t: Transport, value: real, num: Numerics)
    requires -4.0 <= value <= 4.0
    ensures IssuedAt(t, SetFloat(c, t, L1RoomTemperatureFineTuning, value, num).transport, 0)
         == Call("update", ["@_S_134_85=" + num.show(num.round1(value))])
  {
    FloatFirstCall(c, t, L1RoomTemperatureFineTuning, value, num);
    var text := num.show(num.round1(value));
    assert "@_S_134_85" + "=" == "@_S_134_85=";
    assert "@_S_134_85" + "=" + text == "@_S_134_85=" + text;
  }

  /** The range is checked on the value before rounding: 4.04 is refused although it rounds to 4.0. */
  lemma FineTuningRangeBeforeRounding(c: Client, t: Transport, num: Numerics)
    ensures SetFloat(c, t, L1RoomTemperatureFineTuning, 4.04, num) == Step(Err(OutOfBounds), t)
  {
  }

  /** With distinct control ids, the enum setter writes every one of them, in order, with the same code. */
  lemma EnumWritesEveryControlId(e: Endpoint, v: ControlValue)
    requires e.EnumControl? && Distinct(e.controlIds)
    ensures |UpdateParams(EnumWrite(e, v))| == |e.controlIds|
    ensures forall i :: 0 <= i < |e.controlIds| ==> UpdateParams(EnumWrite(e, v))[i] == e.controlIds[i] + "=" + v.Code()
  {
    var pairs := seq(|e.controlIds|, i requires 0 <= i < |e.controlIds| => (e.controlIds[i], v.Code()));
    assert Keys(pairs) == e.controlIds;
    FromDistinctPairs(pairs);
  }

  /** Home/away writes the code to both of its ids, the id it is read from first. */
  lemma HomeAwayWritesBoth(v: ControlValue)
    requires v.Setting?
    ensures UpdateParams(EnumWrite(HomeAwayMode, v)) == ["S_135_85=" + v.Code(), "S_222_85=" + v.Code()]
  {
    EnumWritesEveryControlId(HomeAwayMode, v);
    var params := UpdateParams(EnumWrite(HomeAwayMode, v));
    assert params[0] == "S_135_85=" + v.Code();
    assert params[1] == "S_222_85=" + v.Code();
  }

  /** Home/away is confirmed by its second id alone, not by the id it is read from. */
  lemma HomeAwayConfirmedBySecondId(v: ControlValue, response: Response)
    requires v.Setting?
    ensures ConfirmEnum(response, HomeAwayMode.responseIds, v.Code()).Ok?
        <==> Get(response.values, "S_222_85") == Some(v.Code())
  {
    assert v.Code() != "";
  }

  /**
    Only the last response id is compared: an earlier id holding another
    (non-empty) value does not fail the confirmation, while the same values
    in the other order do.
   */
  lemma EnumComparesLastOnly(response: Response, a: string, b: string, code: string, other: string)
    requires code != "" && other != "" && other != code
    requires Get(response.values, a) == Some(other) && Get(response.values, b) == Some(code)
    ensures ConfirmEnum(response, [a, b], code) == Ok(response)
    ensures ConfirmEnum(response, [b, a], code) == Err(ClientError(ValueMismatch))
  {
  }

  /** A value of the other enumeration is refused before any request. */
  lemma WrongEnumRefused(c: Client, t: Transport, s: HomeAwayControl, m: OperationMode)
    ensures SetEnum(c, t, L1OperationMode, Setting(s)) == Step(Err(WrongEnumType), t)
    ensures SetEnum(c, t, HomeAwayMode, Mode(m)) == Step(Err(WrongEnumType), t)
  {
  }

  /**
    When no two keys of the reply are shown under the same name, the
    presented reading keeps every entry, each under its name with its label.
   */
  lemma GetValuesShowsEveryReading(t: Transport, key: string, value: string)
    requires Answer(Nth(t.script, 0)).Ok?
    requires RenamesApart(Answer(Nth(t.script, 0)).value.values)
    ensures GetValues(t).result.Ok?
    ensures |GetValues(t).result.value| == |Answer(Nth(t.script, 0)).value.values|
    ensures Get(Answer(Nth(t.script, 0)).value.values, key) == Some(value) ==>
      Get(GetValues(t).result.value, Rename(key)) == Some(Decode(key, value))
  {
    TranslateKeepsEveryKey(Answer(Nth(t.script, 0)).value.values, key, value);
  }
}
