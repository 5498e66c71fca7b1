/** The `Session` class of `confluence/rpc.py` without its transport: the
    login token, `do` (the wrapper every remote call goes through), the
    `autorenew` retry, the cached server info, and how `renderContent` fills
    in its `parameters`. The XML-RPC server is an oracle that answers each
    call; which methods exist on it and what they return is its business. */
module Rpc {
  import opened Common
  import opened Faults

  /** The values that travel over XML-RPC. `Nil` is Python's None. */
  datatype Value =
    | Nil
    | Bool(b: bool)
    | Int(i: int)
    | Str(s: string)
    | List(items: seq<Value>)
    | Dict(entries: map<string, Value>)

  /** Python's truth value of a returned value. */
  predicate Truthy(v: Value) {
    match v
    case Nil => false
    case Bool(b) => b
    case Int(i) => i != 0
    case Str(s) => s != []
    case List(items) => items != []
    case Dict(entries) => entries != map[]
  }

  /** One remote call `confluence1.<name>(*args)`. */
  datatype Call = Call(name: string, args: seq<Value>)

  /** The server's answer to a call: a value, or an `xmlrpclib.Fault`. */
  datatype Reply = Returned(value: Value) | Faulted(fault: Fault)

  /** The server's behaviour: its answer to the `n`-th call made to it. */
  type Oracle = (nat, Call) -> Reply

  /** The far end as a session sees it: how the server answers, and the
      exception `do` raises for a fault. Every `Session` uses
      `Faults.FromFault` for the latter; the properties below hold whatever
      the mapping is, unless they say otherwise. */
  datatype Remote = Remote(answer: Oracle, fromFault: Fault -> Error)

  /** The exceptions this part of the module raises. */
  datatype Exception =
    | Confluence(error: Error)
    | ValueError(msg: string)
    | AttributeError(msg: string)

  /** What a Python call does: return a value or raise. */
  datatype Outcome = Return(value: Value) | Raise(exc: Exception)

  const NOT_LOGGED_IN: Exception := Confluence(Error(ConfluenceError, "Not logged in.", None))

  /** Raised when `_login` reads `self._user` before `login` has set it. */
  const NO_USER: Exception := AttributeError("Session instance has no attribute '_user'")

  const STYLE_TWICE: Exception :=
    ValueError("Cannot specify 'style' as both a keyword argument and in 'parameters'")

  /** Whether `autorenew` catches this outcome. */
  predicate IsInvalidSession(o: Outcome) {
    o.Raise? && o.exc.Confluence? && o.exc.error.cls == InvalidSessionException
  }

  /** A reply as `do` passes it on: a fault is raised as the exception made from it. */
  function Received(r: Reply, fromFault: Fault -> Error): (o: Outcome)
    ensures o.Return? <==> r.Returned?
    ensures r.Returned? ==> o.value == r.value
    ensures r.Faulted? ==> o.exc == Confluence(fromFault(r.fault))
  {
    match r
    case Returned(v) => Return(v)
    case Faulted(f) => Raise(Confluence(fromFault(f)))
  }

  /** The example InvalidSessionException fault is one `autorenew` catches. */
  lemma {:induction false} ExpiredSessionIsInvalid()
    ensures IsInvalidSession(Received(Faulted(EXPIRED_SESSION), FromFault))
  {
    ExpiredSessionFault();
  }

  /** `kwargs.get(key, default)` for a keyword argument that may be absent. */
  function KeywordOr(arg: Option<Value>, default: Value): Value {
    if arg.Some? then arg.value else default
  }

  // ---------------------------------------------------------------- what each operation does

  /** What an operation did: its outcome, the token afterwards and the remote
      calls it made, in order. */
  datatype Step = Step(outcome: Outcome, token: Value, calls: seq<Call>)

  /** `do(name, *margs, auth=auth)` with `n` calls made before it. An
      authenticated call is refused, with no call made, while there is no
      token; otherwise exactly one call goes out, the token in front of the
      arguments when `auth`, and its reply is the outcome. */
  function DoStep(token: Value, name: string, margs: seq<Value>, auth: bool, remote: Remote, n: nat): (s: Step)
    ensures s.token == token
    ensures s.calls == [] <==> auth && token == Nil
    ensures s.calls == [] ==> s.outcome == Raise(NOT_LOGGED_IN)
    ensures s.calls != [] ==>
      && |s.calls| == 1 && s.calls[0].name == name
      && s.calls[0].args == (if auth then [token] + margs else margs)
      && s.outcome == Received(remote.answer(n, s.calls[0]), remote.fromFault)
  {
    if auth && token == Nil then Step(Raise(NOT_LOGGED_IN), token, [])
    else
      var call := Call(name, if auth then [token] + margs else margs);
      Step(Received(remote.answer(n, call), remote.fromFault), token, [call])
  }

  /** `_login()`: the stored user and password, sent without a token. The
      reply becomes the token; a failed login leaves the token as it was. */
  function LoginStep(token: Value, user: Option<Value>, password: Value, remote: Remote, n: nat): (s: Step)
    ensures user.None? ==> s == Step(Raise(NO_USER), token, [])
    ensures user.Some? ==> s.calls == [Call("login", [user.value, password])]
    ensures user.Some? && remote.answer(n, Call("login", [user.value, password])).Returned? ==>
      s.outcome == Return(Nil) && s.token == remote.answer(n, Call("login", [user.value, password])).value
    ensures user.Some? && remote.answer(n, Call("login", [user.value, password])).Faulted? ==>
      s.outcome == Received(remote.answer(n, Call("login", [user.value, password])), remote.fromFault)
    ensures s.outcome.Raise? ==> s.token == token
    ensures s.outcome.Return? ==>
      s.outcome.value == Nil && user.Some?
      && remote.answer(n, s.calls[0]) == Returned(s.token)
  {
    if user.None? then Step(Raise(NO_USER), token, [])
    else
      var d := DoStep(token, "login", [user.value, password], false, remote, n);
      if d.outcome.Return? then Step(Return(Nil), d.outcome.value, d.calls) else d
  }

  /** `logout()`: one authenticated call; the token is dropped exactly when
      the server answers with a true value. */
  function LogoutStep(token: Value, remote: Remote, n: nat): (s: Step)
    ensures s.calls == DoStep(token, "logout", [], true, remote, n).calls
    ensures s.outcome == DoStep(token, "logout", [], true, remote, n).outcome
    ensures s.token == if s.outcome.Return? && Truthy(s.outcome.value) then Nil else token
  {
    var d := DoStep(token, "logout", [], true, remote, n);
    if d.outcome.Return? && Truthy(d.outcome.value) then Step(d.outcome, Nil, d.calls) else d
  }

  /** `autorenew`'s second chance for `do(name, *margs)`: `_reconnect()`, then,
      if that worked, the call again with the new token. */
  function RetryStep(token: Value, user: Option<Value>, password: Value, name: string, margs: seq<Value>,
                     remote: Remote, n: nat): (s: Step)
    ensures |s.calls| <= 2 && (s.calls == [] <==> user.None?)
    ensures s.outcome.Return? ==> |s.calls| == 2 && s.calls[1] == Call(name, [s.token] + margs)
    ensures |s.calls| == 2 ==>
              && s.calls[0] == Call("login", [user.value, password])
              && s.calls[1] == Call(name, [s.token] + margs)
              && s.outcome == Received(remote.answer(n + 1, s.calls[1]), remote.fromFault)
  {
    var login := LoginStep(token, user, password, remote, n);
    if login.outcome.Raise? then login
    else
      var second := DoStep(login.token, name, margs, true, remote, n + |login.calls|);
      Step(second.outcome, login.token, login.calls + second.calls)
  }

  /** A method wrapped in `autorenew` that forwards to `do(name, *margs)`:
      on InvalidSessionException, one `RetryStep`. */
  function RenewStep(token: Value, user: Option<Value>, password: Value, name: string, margs: seq<Value>,
                     remote: Remote, n: nat): (s: Step)
    ensures |s.calls| <= 3 && (s.calls == [] <==> token == Nil)
  {
    var first := DoStep(token, name, margs, true, remote, n);
    if !IsInvalidSession(first.outcome) then first
    else
      var retry := RetryStep(token, user, password, name, margs, remote, n + |first.calls|);
      Step(retry.outcome, retry.token, first.calls + retry.calls)
  }

  /** `autorenew` tries at most twice: anything but InvalidSessionException
      from the first try is passed on as it is; after it, one login and one
      more try at most, and whatever that second try gives, InvalidSessionException
      included, is final. */
  lemma {:induction false} RenewRetriesOnce(token: Value, user: Option<Value>, password: Value, name: string, margs: seq<Value>,
                         remote: Remote, n: nat)
    ensures var s, first := RenewStep(token, user, password, name, margs, remote, n),
                            DoStep(token, name, margs, true, remote, n);
      && |s.calls| <= 3
      && (!IsInvalidSession(first.outcome) ==> s == first)
      && (IsInvalidSession(first.outcome) ==>
            && s.calls[0] == first.calls[0]
            && (user.None? ==> s == Step(Raise(NO_USER), token, first.calls))
            && (user.Some? && remote.answer(n + 1, Call("login", [user.value, password])).Faulted? ==>
                  s == Step(Received(remote.answer(n + 1, Call("login", [user.value, password])), remote.fromFault),
                            token, first.calls + [Call("login", [user.value, password])]))
            && (|s.calls| == 3 ==>
                  && s.calls[1] == Call("login", [user.value, password])
                  && s.calls[2] == Call(name, [s.token] + margs)
                  && s.outcome == Received(remote.answer(n + 2, s.calls[2]), remote.fromFault)))
  {
    var first := DoStep(token, name, margs, true, remote, n);
    if IsInvalidSession(first.outcome) {
      var login := LoginStep(token, user, password, remote, n + 1);
      if login.outcome.Return? {
        var second := DoStep(login.token, name, margs, true, remote, n + 2);
        assert RenewStep(token, user, password, name, margs, remote, n)
            == Step(second.outcome, login.token, first.calls + (login.calls + second.calls));
      } else {
        assert RenewStep(token, user, password, name, margs, remote, n) == Step(login.outcome, token, first.calls + login.calls);
      }
    }
  }

  /** A token the server no longer accepts is replaced by logging in again,
      and the call is then made with the new one. */
  lemma {:induction false} RenewReplacesToken(token: Value, user: Option<Value>, password: Value, name: string, margs: seq<Value>,
                           remote: Remote, n: nat, renewed: Value)
    requires token != Nil && user.Some?
    requires IsInvalidSession(Received(remote.answer(n, Call(name, [token] + margs)), remote.fromFault))
    requires remote.answer(n + 1, Call("login", [user.value, password])) == Returned(renewed)
    ensures var s := RenewStep(token, user, password, name, margs, remote, n);
      && s.token == renewed
      && (renewed != Nil ==>
            s.calls == [Call(name, [token] + margs), Call("login", [user.value, password]), Call(name, [renewed] + margs)])
      && (renewed == Nil ==> s.outcome == Raise(NOT_LOGGED_IN) && |s.calls| == 2)
  {
  }

  /** The keyword arguments of `renderContent` other than `parameters`;
      `style` is `Nil` when absent or None. */
  datatype RenderArgs = RenderArgs(spaceKey: Option<Value>, pageId: Option<Value>, content: Option<Value>, style: Value)

  /** One run of `renderContent`'s body on the dict `params`, and that dict afterwards. */
  datatype Attempt = Attempt(step: Step, params: map<string, Value>)

  /** The arguments `renderContent` passes to `do` besides the token; absent ones are `''`. */
  function RenderArguments(args: RenderArgs, params: map<string, Value>): seq<Value> {
    [KeywordOr(args.spaceKey, Str("")), KeywordOr(args.pageId, Str("")), KeywordOr(args.content, Str("")), Dict(params)]
  }

  /** A `style` given both ways is refused before any call and leaves the dict
      alone; otherwise `style`, when given, is written into the dict, which is
      then what the server receives. */
  function RenderAttempt(token: Value, params: map<string, Value>, args: RenderArgs, remote: Remote, n: nat): (a: Attempt)
    ensures a.step.token == token
    ensures args.style != Nil && "style" in params ==>
      a == Attempt(Step(Raise(STYLE_TWICE), token, []), params)
    ensures !(args.style != Nil && "style" in params) ==>
      && a.params == (if args.style != Nil then params["style" := args.style] else params)
      && a.params.Keys == params.Keys + (if args.style != Nil then {"style"} else {})
      && a.step == DoStep(token, "renderContent", RenderArguments(args, a.params), true, remote, n)
  {
    if args.style != Nil && "style" in params then Attempt(Step(Raise(STYLE_TWICE), token, []), params)
    else
      var merged := if args.style != Nil then params["style" := args.style] else params;
      Attempt(DoStep(token, "renderContent", RenderArguments(args, merged), true, remote, n), merged)
  }

  /** The dict a run of the body works on: the caller's, or a renewed empty one. */
  function ParamsOf(given: Option<map<string, Value>>): map<string, Value> {
    if given.Some? then given.value else map[]
  }

  /** The caller's dict after a run of the body left `params` in it; None when
      the caller passed none. */
  function Kept(given: Option<map<string, Value>>, params: map<string, Value>): Option<map<string, Value>> {
    if given.Some? then Some(params) else None
  }

  /** What `renderContent` did, and the caller's `parameters` dict afterwards (None when not given). */
  datatype Render = Render(step: Step, params: Option<map<string, Value>>)

  /** `autorenew`'s second chance for `renderContent`: `_reconnect()`, then,
      if that worked, the body again on the caller's dict as it now is. */
  function RenderRetry(token: Value, user: Option<Value>, password: Value, given: Option<map<string, Value>>,
                       args: RenderArgs, remote: Remote, n: nat): (r: Render)
    ensures |r.step.calls| <= 2 && (r.step.calls == [] <==> user.None?)
    ensures r.params.Some? <==> given.Some?
    ensures given.Some? ==> given.value.Keys <= r.params.value.Keys
  {
    var login := LoginStep(token, user, password, remote, n);
    if login.outcome.Raise? then Render(login, given)
    else
      var second := RenderAttempt(login.token, ParamsOf(given), args, remote, n + |login.calls|);
      Render(Step(second.step.outcome, login.token, login.calls + second.step.calls), Kept(given, second.params))
  }

  /** `renderContent` as written: the retry runs the body again on the
      caller's dict, which the first run may already have changed. */
  function RenderAsWritten(token: Value, user: Option<Value>, password: Value, given: Option<map<string, Value>>,
                           args: RenderArgs, remote: Remote, n: nat): (r: Render)
    ensures |r.step.calls| <= 3
    ensures r.step.calls == [] <==> token == Nil || (args.style != Nil && "style" in ParamsOf(given))
    ensures r.params.Some? <==> given.Some?
    ensures given.Some? ==> given.value.Keys <= r.params.value.Keys
  {
    var first := RenderAttempt(token, ParamsOf(given), args, remote, n);
    if !IsInvalidSession(first.step.outcome) then Render(first.step, Kept(given, first.params))
    else
      var retry := RenderRetry(token, user, password, Kept(given, first.params), args, remote, n + |first.step.calls|);
      Render(Step(retry.step.outcome, retry.step.token, first.step.calls + retry.step.calls), retry.params)
  }

  /** `renderContent` merging `style` into a copy of `parameters`: every run
      starts from the caller's dict as given, and the caller's dict is left alone. */
  function RenderCopied(token: Value, user: Option<Value>, password: Value, given: Option<map<string, Value>>,
                        args: RenderArgs, remote: Remote, n: nat): (s: Step)
    ensures |s.calls| <= 3
    ensures s.calls == [] <==> token == Nil || (args.style != Nil && "style" in ParamsOf(given))
  {
    var first := RenderAttempt(token, ParamsOf(given), args, remote, n).step;
    if !IsInvalidSession(first.outcome) then first
    else
      var retry := RenderRetry(token, user, password, given, args, remote, n + |first.calls|).step;
      Step(retry.outcome, retry.token, first.calls + retry.calls)
  }

  /** `RenderAsWritten` once the first run raised InvalidSessionException. */
  lemma {:induction false} AsWrittenRetried(token: Value, user: Option<Value>, password: Value, given: Option<map<string, Value>>,
                         args: RenderArgs, remote: Remote, n: nat, first: Attempt, retry: Render)
    requires first == RenderAttempt(token, ParamsOf(given), args, remote, n) && IsInvalidSession(first.step.outcome)
    requires retry == RenderRetry(token, user, password, Kept(given, first.params), args, remote, n + |first.step.calls|)
    ensures RenderAsWritten(token, user, password, given, args, remote, n)
         == Render(Step(retry.step.outcome, retry.step.token, first.step.calls + retry.step.calls), retry.params)
  {
  }

  /** `RenderAsWritten` when the first run did not raise InvalidSessionException. */
  lemma {:induction false} AsWrittenFirst(token: Value, user: Option<Value>, password: Value, given: Option<map<string, Value>>,
                                          args: RenderArgs, remote: Remote, n: nat, first: Attempt)
    requires first == RenderAttempt(token, ParamsOf(given), args, remote, n) && !IsInvalidSession(first.step.outcome)
    ensures RenderAsWritten(token, user, password, given, args, remote, n) == Render(first.step, Kept(given, first.params))
  {
  }

  /** `RenderCopied` when the first run did not raise InvalidSessionException. */
  lemma {:induction false} CopiedFirst(token: Value, user: Option<Value>, password: Value, given: Option<map<string, Value>>,
                                       args: RenderArgs, remote: Remote, n: nat, first: Step)
    requires first == RenderAttempt(token, ParamsOf(given), args, remote, n).step && !IsInvalidSession(first.outcome)
    ensures RenderCopied(token, user, password, given, args, remote, n) == first
  {
  }

  /** `RenderCopied` once the first run raised InvalidSessionException. */
  lemma {:induction false} CopiedRetried(token: Value, user: Option<Value>, password: Value, given: Option<map<string, Value>>,
                      args: RenderArgs, remote: Remote, n: nat, first: Step, retry: Step)
    requires first == RenderAttempt(token, ParamsOf(given), args, remote, n).step && IsInvalidSession(first.outcome)
    requires retry == RenderRetry(token, user, password, given, args, remote, n + |first.calls|).step
    ensures RenderCopied(token, user, password, given, args, remote, n)
         == Step(retry.outcome, retry.token, first.calls + retry.calls)
  {
  }

  /** The conditions under which the retry of `renderContent` matters: a
      `style` keyword, a caller's dict without one, a first call the server
      answers with InvalidSessionException, and a login that succeeds. */
  predicate RetriedWithStyle(token: Value, user: Option<Value>, password: Value, params: map<string, Value>,
                             args: RenderArgs, remote: Remote, n: nat)
  {
    && token != Nil && user.Some? && args.style != Nil && "style" !in params
    && IsInvalidSession(Received(remote.answer(n, Call("renderContent",
                                   [token] + RenderArguments(args, params["style" := args.style]))),
                                 remote.fromFault))
    && remote.answer(n + 1, Call("login", [user.value, password])).Returned?
  }

  /** As written, the retry finds the `style` the first run put into the
      caller's dict and raises ValueError instead of calling the server
      again; the caller's dict keeps the added `style`. */
  lemma {:induction false} RetryRejectsOwnStyle(token: Value, user: Option<Value>, password: Value, params: map<string, Value>,
                             args: RenderArgs, remote: Remote, n: nat)
    requires RetriedWithStyle(token, user, password, params, args, remote, n)
    ensures var r := RenderAsWritten(token, user, password, Some(params), args, remote, n);
      && r.step.outcome == Raise(STYLE_TWICE)
      && |r.step.calls| == 2 && r.step.calls[0].name == "renderContent" && r.step.calls[1].name == "login"
      && r.params == Some(params["style" := args.style])
  {
    var first := RenderAttempt(token, params, args, remote, n);
    var login := LoginStep(token, user, password, remote, n + 1);
    assert RenderAttempt(login.token, first.params, args, remote, n + 2).step.outcome == Raise(STYLE_TWICE);
  }

  /** With the merge done on a copy the same situation is retried as
      `autorenew` intends: a second `renderContent` call with the new token
      and the same arguments, whose reply is the outcome. */
  lemma {:induction false} RetryRendersAgain(token: Value, user: Option<Value>, password: Value, params: map<string, Value>,
                          args: RenderArgs, remote: Remote, n: nat)
    requires RetriedWithStyle(token, user, password, params, args, remote, n)
    requires remote.answer(n + 1, Call("login", [user.value, password])) != Returned(Nil)
    ensures var s, renewed := RenderCopied(token, user, password, Some(params), args, remote, n),
                            remote.answer(n + 1, Call("login", [user.value, password])).value;
      var margs := RenderArguments(args, params["style" := args.style]);
      && s.token == renewed
      && s.calls == [Call("renderContent", [token] + margs), Call("login", [user.value, password]),
                     Call("renderContent", [renewed] + margs)]
      && s.outcome == Received(remote.answer(n + 2, s.calls[2]), remote.fromFault)
  {
  }

  /** Without a retry, or without a caller's dict, the copy makes no difference
      to the outcome, the token or the calls `renderContent` makes; the caller's
      dict itself still differs, since only the code as written adds `style` to it. */
  lemma {:induction false} CopyChangesOnlyTheRetry(token: Value, user: Option<Value>, password: Value,
                                given: Option<map<string, Value>>, args: RenderArgs, remote: Remote, n: nat)
    requires given.None? || !IsInvalidSession(RenderAttempt(token, ParamsOf(given), args, remote, n).step.outcome)
    ensures RenderCopied(token, user, password, given, args, remote, n)
         == RenderAsWritten(token, user, password, given, args, remote, n).step
  {
  }

  // ---------------------------------------------------------------- the objects

  /** The remote end (`ServerProxy(...).confluence1`): it answers by `answer`
      and records every call it receives. */
  class Server {
    var log: seq<Call>
    const answer: Oracle

    constructor (answer: Oracle)
      ensures this.answer == answer && log == []
    {
      this.answer := answer;
      log := [];
    }

    method Invoke(call: Call) returns (reply: Reply)
      modifies this
      ensures log == old(log) + [call]
      ensures reply == answer(|old(log)|, call)
    {
      reply := answer(|log|, call);
      log := log + [call];
    }
  }

  /** A caller's `parameters` dict, which `renderContent` updates in place. */
  class Params {
    var entries: map<string, Value>

    constructor (entries: map<string, Value>)
      ensures this.entries == entries
    {
      this.entries := entries;
    }
  }

  /** The `parameters` keyword as passed: the caller's dict, or None when absent. */
  function Given(parameters: Params?): Option<map<string, Value>>
    reads parameters
  {
    if parameters != null then Some(parameters.entries) else None
  }

  class Session {
    const server: Server
    /** `ConfluenceError.from_fault`, which `do` raises for every fault. */
    const fromFault: Fault -> Error
    /** `_auto_renew`: stored, and read by nothing; the retry does not depend on it. */
    const autoRenew: bool
    /** `_token`; `Nil` when not logged in. */
    var token: Value
    /** `_user`: absent until `login` sets it (the constructor sets `_username` instead). */
    var user: Option<Value>
    var password: Value
    /** `_server_info`: None until fetched, then the fetched value. */
    var serverInfo: Option<Value>

    constructor (server: Server, autoRenew: bool)
      ensures this.server == server && fromFault == FromFault && this.autoRenew == autoRenew
      ensures token == Nil && user == None && password == Nil && serverInfo == None
    {
      this.server := server;
      fromFault := FromFault;
      this.autoRenew := autoRenew;
      token := Nil;
      user := None;
      password := Nil;
      serverInfo := None;
    }

    /** The server as this session sees it. */
    function Peer(): Remote {
      Remote(server.answer, fromFault)
    }

    /** `do(name, *margs, auth=auth)`: with `auth`, refuse without a token,
        else put the token in front of the arguments; then call the server. */
    method Do(name: string, margs: seq<Value>, auth: bool) returns (o: Outcome)
      modifies server
      ensures var s := DoStep(token, name, margs, auth, Peer(), |old(server.log)|);
        o == s.outcome && server.log == old(server.log) + s.calls
    {
      var args := margs;
      if auth {
        if token == Nil {
          return Raise(NOT_LOGGED_IN);
        }
        args := [token] + args;
      }
      var reply := server.Invoke(Call(name, args));
      o := Received(reply, fromFault);
    }

    /** `_login()`, which `_reconnect()` also is. */
    method Relogin() returns (o: Outcome)
      modifies this, server
      ensures var s := LoginStep(old(token), old(user), old(password), Peer(), |old(server.log)|);
        o == s.outcome && token == s.token && server.log == old(server.log) + s.calls
      ensures user == old(user) && password == old(password) && serverInfo == old(serverInfo)
    {
      if user.None? {
        return Raise(NO_USER);
      }
      o := Do("login", [user.value, password], false);
      if o.Return? {
        token := o.value;
        o := Return(Nil);
      }
    }

    /** `login(user, password)`: store the credentials, then `_login()`. */
    method Login(u: Value, p: Value) returns (o: Outcome)
      modifies this, server
      ensures var s := LoginStep(old(token), Some(u), p, Peer(), |old(server.log)|);
        o == s.outcome && token == s.token && server.log == old(server.log) + s.calls
      ensures user == Some(u) && password == p && serverInfo == old(serverInfo)
    {
      user := Some(u);
      password := p;
      o := Relogin();
    }

    /** `logout()`. */
    method Logout() returns (o: Outcome)
      modifies this, server
      ensures var s := LogoutStep(old(token), Peer(), |old(server.log)|);
        o == s.outcome && token == s.token && server.log == old(server.log) + s.calls
      ensures user == old(user) && password == old(password) && serverInfo == old(serverInfo)
    {
      o := Do("logout", [], true);
      if o.Return? && Truthy(o.value) {
        token := Nil;
      }
    }

    /** `autorenew`'s second chance for a forwarding method. */
    method Retry(name: string, margs: seq<Value>) returns (o: Outcome)
      modifies this, server
      ensures var s := RetryStep(old(token), old(user), old(password), name, margs, Peer(), |old(server.log)|);
        o == s.outcome && token == s.token && server.log == old(server.log) + s.calls
      ensures user == old(user) && password == old(password) && serverInfo == old(serverInfo)
    {
      o := Relogin();
      if o.Return? {
        o := Do(name, margs, true);
      }
    }

    /** A forwarding method under `autorenew` (`getServerInfo`, `getSpaces`,
        `_getPage`, the label methods): `do(name, *margs)`, retried once
        after reconnecting if the session was invalid. */
    method Renew(name: string, margs: seq<Value>) returns (o: Outcome)
      modifies this, server
      ensures var s := RenewStep(old(token), old(user), old(password), name, margs, Peer(), |old(server.log)|);
        o == s.outcome && token == s.token && server.log == old(server.log) + s.calls
      ensures user == old(user) && password == old(password) && serverInfo == old(serverInfo)
    {
      ghost var t0, log0 := token, server.log;
      o := Do(name, margs, true);
      if IsInvalidSession(o) {
        ghost var first := DoStep(t0, name, margs, true, Peer(), |log0|);
        ghost var log1 := server.log;
        o := Retry(name, margs);
        ghost var retry := RetryStep(t0, user, password, name, margs, Peer(), |log1|);
        assert RenewStep(t0, user, password, name, margs, Peer(), |log0|)
          == Step(retry.outcome, retry.token, first.calls + retry.calls);
      }
    }

    /** The `server_info` property: fetched through `getServerInfo` the
        first time, then served from `_server_info` with no remote call. */
    method ServerInfo() returns (o: Outcome)
      modifies this, server
      ensures old(serverInfo).Some? ==>
        o == Return(old(serverInfo).value) && server.log == old(server.log) && token == old(token)
        && serverInfo == old(serverInfo)
      ensures old(serverInfo).None? ==>
        var s := RenewStep(old(token), old(user), old(password), "getServerInfo", [], Peer(), |old(server.log)|);
        o == s.outcome && token == s.token && server.log == old(server.log) + s.calls
        && serverInfo == (if o.Return? then Some(o.value) else None)
      ensures user == old(user) && password == old(password)
    {
      if serverInfo.Some? {
        return Return(serverInfo.value);
      }
      o := Renew("getServerInfo", []);
      if o.Return? {
        serverInfo := Some(o.value);
      }
    }

    /** One run of `renderContent`'s body: check `style` against the
        parameters dict, write it in, and call the server. Without a caller's
        dict the body works on a renewed empty one. */
    method RenderBody(args: RenderArgs, parameters: Params?) returns (o: Outcome)
      modifies server, parameters
      ensures var a := RenderAttempt(token, ParamsOf(old(Given(parameters))), args,
                                     Peer(), |old(server.log)|);
        o == a.step.outcome && server.log == old(server.log) + a.step.calls
        && (parameters != null ==> parameters.entries == a.params)
    {
      var dict := parameters;
      if dict == null {
        dict := new Params(map[]);
      }
      if args.style != Nil {
        if "style" in dict.entries {
          return Raise(STYLE_TWICE);
        }
        dict.entries := dict.entries["style" := args.style];
      }
      o := Do("renderContent", RenderArguments(args, dict.entries), true);
    }

    /** `autorenew`'s second chance for `renderContent` as written. */
    method RetryRender(args: RenderArgs, parameters: Params?) returns (o: Outcome)
      modifies this, server, parameters
      ensures var r := RenderRetry(old(token), old(user), old(password),
                                   old(Given(parameters)),
                                   args, Peer(), |old(server.log)|);
        o == r.step.outcome && token == r.step.token && server.log == old(server.log) + r.step.calls
        && (parameters != null ==> r.params == Given(parameters))
      ensures user == old(user) && password == old(password) && serverInfo == old(serverInfo)
    {
      o := Relogin();
      if o.Return? {
        o := RenderBody(args, parameters);
      }
    }

    /** `renderContent` as written, under `autorenew`. */
    method RenderContent(args: RenderArgs, parameters: Params?) returns (o: Outcome)
      modifies this, server, parameters
      ensures var r := RenderAsWritten(old(token), old(user), old(password),
                                       old(Given(parameters)),
                                       args, Peer(), |old(server.log)|);
        o == r.step.outcome && token == r.step.token && server.log == old(server.log) + r.step.calls
        && (parameters != null ==> r.params == Given(parameters))
      ensures user == old(user) && password == old(password) && serverInfo == old(serverInfo)
    {
      ghost var t0, log0 := token, server.log;
      ghost var given := Given(parameters);
      o := RenderBody(args, parameters);
      ghost var first := RenderAttempt(t0, ParamsOf(given), args, Peer(), |log0|);
      if IsInvalidSession(o) {
        ghost var log1 := server.log;
        ghost var between := Given(parameters);
        assert log1 == log0 + first.step.calls && between == Kept(given, first.params);
        o := RetryRender(args, parameters);
        ghost var retry := RenderRetry(t0, user, password, between, args, Peer(), |log1|);
        assert server.log == log0 + (first.step.calls + retry.step.calls);
        AsWrittenRetried(t0, user, password, given, args, Peer(), |log0|, first, retry);
      } else {
        AsWrittenFirst(t0, user, password, given, args, Peer(), |log0|, first);
      }
    }

    /** One run of the corrected body: `style` goes into a copy of the caller's dict. */
    method RenderBodyCopy(args: RenderArgs, parameters: Params?) returns (o: Outcome)
      modifies server
      ensures var a := RenderAttempt(token, ParamsOf(Given(parameters)), args,
                                     Peer(), |old(server.log)|);
        o == a.step.outcome && server.log == old(server.log) + a.step.calls
    {
      var params := if parameters != null then parameters.entries else map[];
      if args.style != Nil {
        if "style" in params {
          return Raise(STYLE_TWICE);
        }
        params := params["style" := args.style];
      }
      o := Do("renderContent", RenderArguments(args, params), true);
    }

    /** `autorenew`'s second chance for the corrected `renderContent`. */
    method RetryRenderCopy(args: RenderArgs, parameters: Params?) returns (o: Outcome)
      modifies this, server
      ensures var r := RenderRetry(old(token), old(user), old(password),
                                   Given(parameters),
                                   args, Peer(), |old(server.log)|).step;
        o == r.outcome && token == r.token && server.log == old(server.log) + r.calls
      ensures user == old(user) && password == old(password) && serverInfo == old(serverInfo)
    {
      o := Relogin();
      if o.Return? {
        o := RenderBodyCopy(args, parameters);
      }
    }

    /** `renderContent` corrected to merge into a copy, under `autorenew`. */
    method RenderContentCopy(args: RenderArgs, parameters: Params?) returns (o: Outcome)
      modifies this, server
      ensures var s := RenderCopied(old(token), old(user), old(password),
                                    Given(parameters),
                                    args, Peer(), |old(server.log)|);
        o == s.outcome && token == s.token && server.log == old(server.log) + s.calls
      ensures user == old(user) && password == old(password) && serverInfo == old(serverInfo)
    {
      ghost var t0, log0 := token, server.log;
      ghost var given := Given(parameters);
      o := RenderBodyCopy(args, parameters);
      ghost var first := RenderAttempt(t0, ParamsOf(given), args, Peer(), |log0|).step;
      if IsInvalidSession(o) {
        ghost var log1 := server.log;
        assert log1 == log0 + first.calls;
        o := RetryRenderCopy(args, parameters);
        ghost var retry := RenderRetry(t0, user, password, given, args, Peer(), |log1|).step;
        assert server.log == log0 + (first.calls + retry.calls);
        CopiedRetried(t0, user, password, given, args, Peer(), |log0|, first, retry);
      } else {
        CopiedFirst(t0, user, password, given, args, Peer(), |log0|, first);
      }
    }
  }
}
