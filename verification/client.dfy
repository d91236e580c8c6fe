/**
  The client's request engine: every request consumes the next outcome of a
  scripted transport, failures of the transport become communication
  errors, login and logout are judged by the `result` field, an update
  that meets HTTP 404 logs in once and retries once, and the typed setters
  validate before writing and confirm the value the device echoes.
 */
module Client {
  import opened Wrappers
  import opened Dict
  import opened Decimal
  import opened Codec
  import opened Const
  import opened Endpoints

  /** What the transport does with one request. */
  datatype Outcome =
    | Reply(status: int, body: string)
    | TimedOut
    | NetworkFailure(reason: string)

  /** One request as issued: the path and the parameters before the timestamp. */
  datatype Call = Call(path: string, params: seq<string>)

  /** The outcomes still to come and the requests issued so far. */
  datatype Transport = Transport(script: seq<Outcome>, sent: seq<Call>)

  /** Why the transport failed. */
  datatype Cause = Timeout | HttpStatus(code: int) | Network(reason: string)

  /** The different complaints of the generic client error. */
  datatype Problem = UnexpectedLoginReply | UnexpectedLogoutReply | ValueMissing | NotANumber | ValueMismatch

  /** Everything a client call can fail with. */
  datatype Error =
    | CommunicationError(cause: Cause)
    | AuthenticationError
    | ClientError(problem: Problem)
    | MalformedResponse
    | OutOfBounds
    | WrongEnumType
    | Unbound(variable: string)

  /** The result of a call together with the transport after it. */
  datatype Step<+T> = Step(result: Result<T, Error>, transport: Transport)

  /** The device address and the credentials the client logs in with. */
  datatype Client = Client(address: string, username: string, password: string)

  /**
    Python's `float(text)`, `round(x, 1)` and `str(x)` on floats, taken as
    given: the model does not fix binary floating-point behaviour.
   */
  datatype Numerics = Numerics(parse: string -> Option<real>, round1: real -> real, show: real -> string)

  /** The outcome at position `k` of a script; past its end the device never answers. */
  function Nth(script: seq<Outcome>, k: nat): Outcome {
    if k < |script| then script[k] else TimedOut
  }

  /** The script left after `n` requests. */
  function Drop(script: seq<Outcome>, n: nat): seq<Outcome> {
    if n <= |script| then script[n..] else []
  }

  /** `u` is `t` after exactly `n` more requests: `n` outcomes used up, `n` calls recorded after the old ones. */
  predicate Consumed(t: Transport, u: Transport, n: nat) {
    && u.script == Drop(t.script, n)
    && |u.sent| == |t.sent| + n
    && u.sent[..|t.sent|] == t.sent
  }

  /** The `k`-th call issued on the way from `t` to `u` (counting from 0). */
  function IssuedAt(t: Transport, u: Transport, k: nat): Call
    requires |t.sent| + k < |u.sent|
  {
    u.sent[|t.sent| + k]
  }

  /**
    How `_request` reads one outcome: a timeout, an HTTP status of 400 or
    more and any other network failure each become a communication error
    carrying its cause; a successful reply is decoded, and a reply without
    `?` fails to decode (the decoder's `ValueError` is not caught).
   */
  function Answer(o: Outcome): (r: Result<Response, Error>)
    ensures r.Ok? <==> o.Reply? && o.status < 400 && '?' in o.body
    ensures r.Ok? ==> ParseApiResponse(o.body) == Ok(r.value)
    ensures (r.Err? && r.error.CommunicationError?) <==> !(o.Reply? && o.status < 400)
    ensures r == Err(CommunicationError(Timeout)) <==> o.TimedOut?
    ensures o.Reply? && o.status >= 400 ==> r == Err(CommunicationError(HttpStatus(o.status)))
    ensures o.NetworkFailure? ==> r == Err(CommunicationError(Network(o.reason)))
    ensures r == Err(MalformedResponse) <==> o.Reply? && o.status < 400 && '?' !in o.body
  {
    match o
    case TimedOut => Err(CommunicationError(Timeout))
    case NetworkFailure(reason) => Err(CommunicationError(Network(reason)))
    case Reply(status, body) =>
      if status >= 400 then Err(CommunicationError(HttpStatus(status)))
      else
        match ParseApiResponse(body)
        case Ok(response) => Ok(response)
        case Err(_) => Err(MalformedResponse)
  }

  /** The communication error an HTTP 404 reply turns into. */
  predicate NotFound(r: Result<Response, Error>) {
    r == Err(CommunicationError(HttpStatus(404)))
  }

  /** One request: it uses up exactly one outcome and records exactly one call. */
  function Request(t: Transport, path: string, params: seq<string>): (s: Step<Response>)
    ensures Consumed(t, s.transport, 1)
    ensures IssuedAt(t, s.transport, 0) == Call(path, params)
    ensures s.result == Answer(Nth(t.script, 0))
  {
    var rest := if |t.script| == 0 then [] else t.script[1..];
    Step(Answer(Nth(t.script, 0)), Transport(rest, t.sent + [Call(path, params)]))
  }

  /** The parameters of a login request. */
  function LoginParams(c: Client): seq<string> {
    ["uid=" + c.username, "pwd=" + c.password]
  }

  /** The `result` field of a decoded reply. */
  function ResultField(response: Response): Option<string> {
    Get(response.values, "result")
  }

  /**
    How `login` judges its reply: `result=ok` is success, `result=error`
    means wrong credentials, anything else (the field missing included) is
    unexpected; a failed request fails the login unchanged.
   */
  function LoginVerdict(r: Result<Response, Error>): (v: Result<Response, Error>)
    ensures r.Err? ==> v == r
    ensures v.Ok? <==> r.Ok? && ResultField(r.value) == Some("ok")
    ensures v.Ok? ==> v == r
    ensures r.Ok? ==> (v == Err(AuthenticationError) <==> ResultField(r.value) == Some("error"))
    ensures r.Ok? && ResultField(r.value) != Some("ok") && ResultField(r.value) != Some("error") ==>
      v == Err(ClientError(UnexpectedLoginReply))
  {
    match r
    case Err(_) => r
    case Ok(response) =>
      if ResultField(response) == Some("ok") then r
      else if ResultField(response) == Some("error") then Err(AuthenticationError)
      else Err(ClientError(UnexpectedLoginReply))
  }

  /** `login`: one request to `login` with the credentials, judged by its `result` field. */
  function Login(c: Client, t: Transport): (s: Step<Response>)
    ensures Consumed(t, s.transport, 1)
    ensures IssuedAt(t, s.transport, 0) == Call("login", LoginParams(c))
    ensures s.result == LoginVerdict(Answer(Nth(t.script, 0)))
  {
    var s := Request(t, "login", LoginParams(c));
    Step(LoginVerdict(s.result), s.transport)
  }

  /** How `logout` judges its reply: anything but `result=ok` is unexpected. */
  function LogoutVerdict(r: Result<Response, Error>): (v: Result<Response, Error>)
    ensures r.Err? ==> v == r
    ensures v.Ok? <==> r.Ok? && ResultField(r.value) == Some("ok")
    ensures v.Ok? ==> v == r
    ensures r.Ok? && ResultField(r.value) != Some("ok") ==> v == Err(ClientError(UnexpectedLogoutReply))
  {
    match r
    case Err(_) => r
    case Ok(response) =>
      if ResultField(response) == Some("ok") then r else Err(ClientError(UnexpectedLogoutReply))
  }

  /** `logout`: one request to `logout` without parameters. */
  function Logout(t: Transport): (s: Step<Response>)
    ensures Consumed(t, s.transport, 1)
    ensures IssuedAt(t, s.transport, 0) == Call("logout", [])
    ensures s.result == LogoutVerdict(Answer(Nth(t.script, 0)))
  {
    var s := Request(t, "logout", []);
    Step(LogoutVerdict(s.result), s.transport)
  }

  /**
    `get_values`: one request for every id of the name table, the reply
    presented with names and labels. The source computes this dictionary
    and then only logs it.
   */
  function GetValues(t: Transport): (s: Step<Dict<string, string>>)
    ensures Consumed(t, s.transport, 1)
    ensures IssuedAt(t, s.transport, 0) == Call("request", Keys(EndpointNames()))
    ensures s.result.Ok? <==> Answer(Nth(t.script, 0)).Ok?
    ensures s.result.Ok? ==> |s.result.value| <= |Answer(Nth(t.script, 0)).value.values|
    ensures s.result.Err? ==> s.result.error == Answer(Nth(t.script, 0)).error
  {
    var r := Request(t, "request", Keys(EndpointNames()));
    match r.result
    case Ok(response) => Step(Ok(Translate(response.values)), r.transport)
    case Err(e) => Step(Err(e), r.transport)
  }

  /** `key=value` for every entry, in the dictionary's order. */
  function UpdateParams(kvs: Dict<string, string>): (params: seq<string>)
    ensures |params| == |kvs|
    ensures forall i :: 0 <= i < |kvs| ==> params[i] == kvs[i].0 + "=" + kvs[i].1
  {
    seq(|kvs|, i requires 0 <= i < |kvs| => kvs[i].0 + "=" + kvs[i].1)
  }

  /** The errors an update can end in; none of them is a validation error of a setter. */
  predicate UpdateFailure(e: Error) {
    || e.CommunicationError?
    || e == AuthenticationError
    || e == ClientError(UnexpectedLoginReply)
    || e == MalformedResponse
    || e == Unbound("response")
  }

  /**
    `_update_values`. An HTTP 404 (the session has expired) leads to one
    login and then one retry, whose outcome is final; any other HTTP status
    leaves `response` unbound, so the call fails with `UnboundLocalError`;
    timeouts, network failures and undecodable replies propagate.
   */
  function UpdateValues(c: Client, t: Transport, kvs: Dict<string, string>): (s: Step<Response>)
    ensures |s.transport.sent| > |t.sent|
    ensures IssuedAt(t, s.transport, 0) == Call("update", UpdateParams(kvs))
    ensures s.result.Err? ==> UpdateFailure(s.result.error)
    ensures var first := Answer(Nth(t.script, 0));
      !NotFound(first) ==>
        && Consumed(t, s.transport, 1)
        && s.result == (if first.Err? && first.error.CommunicationError? && first.error.cause.HttpStatus?
                        then Err(Unbound("response")) else first)
    ensures var first := Answer(Nth(t.script, 0));
      var login := LoginVerdict(Answer(Nth(t.script, 1)));
      NotFound(first) ==>
        && |s.transport.sent| > |t.sent| + 1
        && IssuedAt(t, s.transport, 1) == Call("login", LoginParams(c))
        && (login.Err? ==> Consumed(t, s.transport, 2) && s.result == Err(login.error))
        && (login.Ok? ==>
              && Consumed(t, s.transport, 3)
              && IssuedAt(t, s.transport, 2) == Call("update", UpdateParams(kvs))
              && s.result == Answer(Nth(t.script, 2)))
  {
    var params := UpdateParams(kvs);
    var first := Request(t, "update", params);
    match first.result
    case Ok(_) => first
    case Err(e) =>
      if e.CommunicationError? && e.cause.HttpStatus? then
        if e.cause.code == 404 then
          var login := Login(c, first.transport);
          ConsumedTwice(t, first.transport, login.transport, 1, 1);
          if login.result.Err? then Step(Err(login.result.error), login.transport)
          else
            var retry := Request(login.transport, "update", params);
            ConsumedTwice(t, login.transport, retry.transport, 2, 1);
            retry
        else Step(Err(Unbound("response")), first.transport)
      else first
  }

  /** Requests in sequence add up: the script is used from where the last request stopped. */
  lemma ConsumedTwice(t: Transport, u: Transport, w: Transport, m: nat, n: nat)
    requires Consumed(t, u, m) && Consumed(u, w, n)
    ensures Consumed(t, w, m + n)
    ensures forall k :: 0 <= k < m ==> IssuedAt(t, w, k) == IssuedAt(t, u, k)
    ensures forall k :: 0 <= k < n ==> IssuedAt(t, w, m + k) == IssuedAt(u, w, k)
    ensures forall k: nat :: Nth(u.script, k) == Nth(t.script, m + k)
  {
    DropTwice(t.script, m, n);
    NthAfterDrop(t.script, m);
    SentTwice(t.sent, u.sent, w.sent);
    forall k | 0 <= k < m ensures IssuedAt(t, w, k) == IssuedAt(t, u, k) {
      assert w.sent[..|u.sent|][|t.sent| + k] == u.sent[|t.sent| + k];
    }
  }

  lemma DropTwice(script: seq<Outcome>, m: nat, n: nat)
    ensures Drop(Drop(script, m), n) == Drop(script, m + n)
  {
    if m + n <= |script| {
      assert script[m..][n..] == script[m + n..];
    }
  }

  lemma NthAfterDrop(script: seq<Outcome>, m: nat)
    ensures forall k: nat :: Nth(Drop(script, m), k) == Nth(script, m + k)
  {
    forall k: nat ensures Nth(Drop(script, m), k) == Nth(script, m + k) {
      if m + k < |script| {
        assert Drop(script, m)[k] == script[m + k];
      }
    }
  }

  lemma SentTwice(a: seq<Call>, b: seq<Call>, c: seq<Call>)
    requires |a| <= |b| <= |c| && b[..|a|] == a && c[..|b|] == b
    ensures c[..|a|] == a
  {
    assert c[..|a|] == c[..|b|][..|a|];
  }

  /** A one-entry update sends the single parameter `key=value`. */
  lemma SingleParam(key: string, value: string)
    ensures UpdateParams([(key, value)]) == [key + "=" + value]
  {
  }

  /** The update the int setter sends: the control id and the value as `str` writes it. */
  function IntWrite(e: Endpoint, value: int): Dict<string, string>
    requires e.IntControl?
  {
    [(e.controlId, IntToString(value))]
  }

  /** The update the float setter sends: the control id and the rounded value as text. */
  function FloatWrite(e: Endpoint, value: real, num: Numerics): Dict<string, string>
    requires e.FloatControl?
  {
    [(e.controlId, num.show(num.round1(value)))]
  }

  /**
    A value is present in a reply when its id is there with a non-empty
    value (the walrus test treats an empty string as missing).
   */
  predicate Present(response: Response, id: string) {
    Get(response.values, id).Some? && Get(response.values, id).value != ""
  }

  /** The device echoed `expected` under `id`: present, and parsing to that number. */
  predicate Echoed(response: Response, id: string, parse: string -> Option<real>, expected: real) {
    Present(response, id) && parse(Get(response.values, id).value) == Some(expected)
  }

  /** The confirmation step of the number setters, failing with the error the source raises first. */
  function ConfirmNumber(response: Response, id: string, parse: string -> Option<real>, expected: real)
    : (r: Result<Response, Error>)
    ensures r.Ok? <==> Echoed(response, id, parse, expected)
    ensures r.Ok? ==> r.value == response
    ensures r == Err(ClientError(ValueMissing)) <==> !Present(response, id)
    ensures r == Err(ClientError(NotANumber)) <==> Present(response, id) && parse(Get(response.values, id).value).None?
    ensures r == Err(ClientError(ValueMismatch)) <==>
      Present(response, id) && parse(Get(response.values, id).value).Some?
      && parse(Get(response.values, id).value).value != expected
    ensures r.Err? ==> r.error.ClientError?
  {
    match Get(response.values, id)
    case None => Err(ClientError(ValueMissing))
    case Some(text) =>
      if text == "" then Err(ClientError(ValueMissing))
      else
        match parse(text)
        case None => Err(ClientError(NotANumber))
        case Some(x) => if x != expected then Err(ClientError(ValueMismatch)) else Ok(response)
  }

  /**
    `_set_int_endpoint`: an out-of-range value is refused before any
    request; otherwise one update writes the value, and the call succeeds
    exactly when the value read back under the sensor id (not the control
    id) is present and numerically equal to it.
   */
  function SetInt(c: Client, t: Transport, e: Endpoint, value: int, num: Numerics): (s: Step<Response>)
    requires e.IntControl?
    ensures !(e.minInt <= value <= e.maxInt) ==> s == Step(Err(OutOfBounds), t)
    ensures s.result == Err(OutOfBounds) <==> !(e.minInt <= value <= e.maxInt)
    ensures e.minInt <= value <= e.maxInt ==>
      var u := UpdateValues(c, t, IntWrite(e, value));
      && s.transport == u.transport
      && IssuedAt(t, s.transport, 0) == Call("update", [e.controlId + "=" + IntToString(value)])
      && (s.result.Ok? <==> u.result.Ok? && Echoed(u.result.value, e.sensorId, num.parse, value as real))
      && (s.result.Ok? ==> s.result == u.result)
      && (u.result.Err? ==> s.result == u.result)
      && (u.result.Ok? && s.result.Err? ==> s.result.error.ClientError?)
      && (s.result == Err(ClientError(ValueMissing)) <==> u.result.Ok? && !Present(u.result.value, e.sensorId))
  {
    if !(e.minInt <= value <= e.maxInt) then Step(Err(OutOfBounds), t)
    else
      SingleParam(e.controlId, IntToString(value));
      var u := UpdateValues(c, t, IntWrite(e, value));
      match u.result
      case Err(err) => Step(Err(err), u.transport)
      case Ok(response) => Step(ConfirmNumber(response, e.sensorId, num.parse, value as real), u.transport)
  }

  /**
    `_set_float_endpoint`: the range check is on the value as given; the
    value written and the value expected back are the value rounded to one
    decimal.
   */
  function SetFloat(c: Client, t: Transport, e: Endpoint, value: real, num: Numerics): (s: Step<Response>)
    requires e.FloatControl?
    ensures !(e.minReal <= value <= e.maxReal) ==> s == Step(Err(OutOfBounds), t)
    ensures s.result == Err(OutOfBounds) <==> !(e.minReal <= value <= e.maxReal)
    ensures e.minReal <= value <= e.maxReal ==>
      var u := UpdateValues(c, t, FloatWrite(e, value, num));
      && s.transport == u.transport
      && IssuedAt(t, s.transport, 0) == Call("update", [e.controlId + "=" + num.show(num.round1(value))])
      && (s.result.Ok? <==> u.result.Ok? && Echoed(u.result.value, e.sensorId, num.parse, num.round1(value)))
      && (s.result.Ok? ==> s.result == u.result)
      && (u.result.Err? ==> s.result == u.result)
      && (u.result.Ok? && s.result.Err? ==> s.result.error.ClientError?)
      && (s.result == Err(ClientError(ValueMissing)) <==> u.result.Ok? && !Present(u.result.value, e.sensorId))
  {
    if !(e.minReal <= value <= e.maxReal) then Step(Err(OutOfBounds), t)
    else
      SingleParam(e.controlId, num.show(num.round1(value)));
      var u := UpdateValues(c, t, FloatWrite(e, value, num));
      match u.result
      case Err(err) => Step(Err(err), u.transport)
      case Ok(response) => Step(ConfirmNumber(response, e.sensorId, num.parse, num.round1(value)), u.transport)
  }

  /** The update the enum setter sends: every control id with the value's code (a repeated id once). */
  function EnumWrite(e: Endpoint, v: ControlValue): (kvs: Dict<string, string>)
    requires e.EnumControl?
    ensures Valid(kvs)
    ensures forall id :: id in Keys(kvs) <==> id in e.controlIds
    ensures forall i :: 0 <= i < |kvs| ==> kvs[i].1 == v.Code()
  {
    var pairs := seq(|e.controlIds|, i requires 0 <= i < |e.controlIds| => (e.controlIds[i], v.Code()));
    assert Keys(pairs) == e.controlIds;
    var kvs := FromPairs(pairs);
    assert forall i :: 0 <= i < |kvs| ==> kvs[i].1 == v.Code() by {
      forall i | 0 <= i < |kvs| ensures kvs[i].1 == v.Code() {
        GetAt(kvs, i);
        GetFromPairs(pairs, kvs[i].0);
        LastValueOfSame(pairs, kvs[i].0, v.Code());
      }
    }
    kvs
  }

  /** Pairs that all carry the same value give that value to every key they name. */
  lemma {:induction false} LastValueOfSame(ps: seq<(string, string)>, k: string, code: string)
    requires forall i :: 0 <= i < |ps| ==> ps[i].1 == code
    ensures k in Keys(ps) ==> LastValue(ps, k) == Some(code)
  {
    if |ps| > 0 && ps[|ps| - 1].0 != k {
      var init := ps[..|ps| - 1];
      if k in Keys(ps) {
        var i :| 0 <= i < |ps| && Keys(ps)[i] == k;
        assert Keys(init)[i] == k;
      }
      LastValueOfSame(init, k, code);
    }
  }

  /** Every response id is present in the reply. */
  predicate AllPresent(response: Response, ids: seq<string>) {
    forall i :: 0 <= i < |ids| ==> Present(response, ids[i])
  }

  /**
    The loop of `_set_enum_endpoint` over the response ids: it stops at the
    first id that is missing; otherwise `result_value` ends up holding the
    value of the last id, and stays as it was when there are no ids.
   */
  function ScanResponses(response: Response, ids: seq<string>, resultValue: Option<string>)
    : (r: Result<Option<string>, Error>)
    ensures r.Ok? <==> AllPresent(response, ids)
    ensures r.Err? ==> r.error == ClientError(ValueMissing)
    ensures r.Ok? ==> r.value == (if |ids| == 0 then resultValue else Get(response.values, ids[|ids| - 1]))
  {
    if |ids| == 0 then Ok(resultValue)
    else if !Present(response, ids[0]) then Err(ClientError(ValueMissing))
    else
      var r := ScanResponses(response, ids[1..], Get(response.values, ids[0]));
      assert AllPresent(response, ids) <==> AllPresent(response, ids[1..]) by {
        assert forall i :: 1 <= i < |ids| ==> ids[i] == ids[1..][i - 1];
      }
      r
  }

  /**
    The confirmation of the enum setter: every response id present, and the
    value at the last one equal to the code written; the values at the
    earlier response ids are not compared. With no response ids the final
    comparison reads an unbound `result_value`.
   */
  function ConfirmEnum(response: Response, ids: seq<string>, code: string): (r: Result<Response, Error>)
    ensures r.Ok? <==> AllPresent(response, ids) && |ids| > 0 && Get(response.values, ids[|ids| - 1]) == Some(code)
    ensures r.Ok? ==> r.value == response
    ensures r == Err(ClientError(ValueMissing)) <==> !AllPresent(response, ids)
    ensures r == Err(Unbound("result_value")) <==> AllPresent(response, ids) && |ids| == 0
    ensures r == Err(ClientError(ValueMismatch)) <==>
      AllPresent(response, ids) && |ids| > 0 && Get(response.values, ids[|ids| - 1]) != Some(code)
  {
    match ScanResponses(response, ids, None)
    case Err(e) => Err(e)
    case Ok(None) => Err(Unbound("result_value"))
    case Ok(Some(value)) => if value != code then Err(ClientError(ValueMismatch)) else Ok(response)
  }

  /**
    `_set_enum_endpoint`: a value of the wrong enumeration is refused before
    any request; otherwise one update writes the code to every control id,
    and the call succeeds exactly when every response id is present and the
    last one holds the code.
   */
  function SetEnum(c: Client, t: Transport, e: Endpoint, v: ControlValue): (s: Step<Response>)
    requires e.EnumControl?
    ensures v.Type() != e.enumType ==> s == Step(Err(WrongEnumType), t)
    ensures s.result == Err(WrongEnumType) <==> v.Type() != e.enumType
    ensures v.Type() == e.enumType ==>
      var u := UpdateValues(c, t, EnumWrite(e, v));
      var ids := e.responseIds;
      && s.transport == u.transport
      && IssuedAt(t, s.transport, 0) == Call("update", UpdateParams(EnumWrite(e, v)))
      && (s.result.Ok? <==>
            u.result.Ok? && AllPresent(u.result.value, ids) && |ids| > 0
            && Get(u.result.value.values, ids[|ids| - 1]) == Some(v.Code()))
      && (s.result.Ok? ==> s.result == u.result)
      && (u.result.Err? ==> s.result == u.result)
      && (u.result.Ok? && s.result.Err? ==> s.result.error.ClientError? || s.result.error == Unbound("result_value"))
      && (u.result.Ok? ==>
            (s.result == Err(ClientError(ValueMismatch)) <==>
               AllPresent(u.result.value, ids) && |ids| > 0 && Get(u.result.value.values, ids[|ids| - 1]) != Some(v.Code())))
      && (s.result == Err(ClientError(ValueMissing)) <==> u.result.Ok? && !AllPresent(u.result.value, ids))
      && (s.result == Err(Unbound("result_value")) <==> u.result.Ok? && AllPresent(u.result.value, ids) && |ids| == 0)
  {
    if v.Type() != e.enumType then Step(Err(WrongEnumType), t)
    else
      var u := UpdateValues(c, t, EnumWrite(e, v));
      match u.result
      case Err(err) => Step(Err(err), u.transport)
      case Ok(response) => Step(ConfirmEnum(response, e.responseIds, v.Code()), u.transport)
  }
}
