/** `ConfluenceError`, its subclasses and `ConfluenceError.from_fault` in
    `confluence/rpc.py`: how an XML-RPC fault from the server becomes a
    Python exception. */
module Faults {
  import opened Common
  import opened Text

  /** The exception classes the module defines; every one but the first
      derives from `ConfluenceError`. */
  datatype ErrorClass =
    | ConfluenceError
    | InvalidSessionException
    | RemoteException
    | AuthenticationFailedException
    | NotPermittedException

  /** An `xmlrpclib.Fault`. */
  datatype Fault = Fault(faultCode: int, faultString: string)

  /** A raised `ConfluenceError` (or subclass): its message and, when it came
      from the server, the fault. */
  datatype Error = Error(cls: ErrorClass, msg: string, fault: Option<Fault>)

  function ClassName(c: ErrorClass): string {
    match c
    case ConfluenceError => "ConfluenceError"
    case InvalidSessionException => "InvalidSessionException"
    case RemoteException => "RemoteException"
    case AuthenticationFailedException => "AuthenticationFailedException"
    case NotPermittedException => "NotPermittedException"
  }

  /** `getattr(sys.modules[__name__], name)`, over the exception classes only:
      the class of that name, if there is one. */
  function LookupClass(name: string): (r: Option<ErrorClass>)
    ensures forall c :: r == Some(c) <==> ClassName(c) == name
  {
    if name == "ConfluenceError" then Some(ConfluenceError)
    else if name == "InvalidSessionException" then Some(InvalidSessionException)
    else if name == "RemoteException" then Some(RemoteException)
    else if name == "AuthenticationFailedException" then Some(AuthenticationFailedException)
    else if name == "NotPermittedException" then Some(NotPermittedException)
    else None
  }

  // ---------------------------------------------------------------- the rpc_exception pattern

  /** The pattern `rpc_exception` up to its first group. Its `.` are not
      escaped, so each matches any character but a newline. */
  const RPC_PREFIX: string := "java.lang.Exception: com.atlassian.confluence.rpc."

  /** Prefix that `from_fault` tests before the pattern. */
  const NO_SUCH_METHOD: string := "java.lang.NoSuchMethodException"

  predicate CharMatches(p: char, c: char) {
    if p == '.' then c != '\n' else c == p
  }

  /** `s` starts with text the pattern's fixed prefix matches. */
  predicate PrefixMatches(s: string) {
    |RPC_PREFIX| <= |s| && forall i :: 0 <= i < |RPC_PREFIX| ==> CharMatches(RPC_PREFIX[i], s[i])
  }

  /** `\w` on a byte string: ASCII letters, digits and `_`. */
  predicate IsWordChar(c: char) {
    'a' <= c <= 'z' || 'A' <= c <= 'Z' || '0' <= c <= '9' || c == '_'
  }

  /** How many word characters `(\w+)` takes from the front of `s`: all of them. */
  function WordRun(s: string): (n: nat)
    ensures n <= |s|
    ensures forall i :: 0 <= i < n ==> IsWordChar(s[i])
    ensures n == |s| || !IsWordChar(s[n])
    decreases |s|
  {
    if s != [] && IsWordChar(s[0]) then 1 + WordRun(s[1..]) else 0
  }

  /** `(.*)$` on what is left: `.*` stops at the first newline, and `$`
      holds at the very end or before a newline that ends the string. */
  function RestOfLine(s: string): (r: Option<string>)
    ensures r.Some? <==> '\n' !in s || ('\n' !in s[..|s| - 1] && s[|s| - 1] == '\n')
    ensures r.Some? ==> '\n' !in r.value && (s == r.value || s == r.value + "\n")
  {
    if '\n' !in s then Some(s)
    else if '\n' !in s[..|s| - 1] && s[|s| - 1] == '\n' then
      assert s == s[..|s| - 1] + "\n";
      Some(s[..|s| - 1])
    else None
  }

  /** `rpc_exception.match(s)`: its two groups, or None when it does not match. */
  function RpcMatch(s: string): (r: Option<(string, string)>) {
    if PrefixMatches(s) then GroupsMatch(s[|RPC_PREFIX|..]) else None
  }

  /** `(\w+): (.*)$` matched at the start of `rest`. */
  function GroupsMatch(rest: string): (r: Option<(string, string)>) {
    var n := WordRun(rest);
    if n == 0 || !StartsWith(rest[n..], ": ") then None
    else
      match RestOfLine(rest[n + 2..])
      case None => None
      case Some(line) => Some((rest[..n], line))
  }

  /** A non-empty run of word characters, as `\w+` matches. */
  predicate IsWord(name: string) {
    name != [] && forall i :: 0 <= i < |name| ==> IsWordChar(name[i])
  }

  /** What follows the prefix in a matching fault string: a class name of
      word characters, `: `, a message of one line, and at most one final newline. */
  predicate IsGroups(rest: string, name: string, msg: string) {
    && IsWord(name)
    && '\n' !in msg
    && (rest == name + ": " + msg || rest == name + ": " + msg + "\n")
  }

  /** What a fault string the pattern matches looks like. */
  predicate IsRpcFault(s: string, name: string, msg: string) {
    PrefixMatches(s) && IsGroups(s[|RPC_PREFIX|..], name, msg)
  }

  lemma {:induction false} WordRunOf(name: string, t: string)
    requires forall i :: 0 <= i < |name| ==> IsWordChar(name[i])
    requires t != [] && !IsWordChar(t[0])
    ensures WordRun(name + t) == |name|
    decreases |name|
  {
    if name != [] {
      assert (name + t)[1..] == name[1..] + t;
      WordRunOf(name[1..], t);
    } else {
      assert name + t == t;
    }
  }

  /** `(.*)$` takes a one-line message back off the message and its final newline, if any. */
  lemma {:induction false} RestOfLineOf(msg: string, eol: string)
    requires '\n' !in msg && (eol == "" || eol == "\n")
    ensures RestOfLine(msg + eol) == Some(msg)
  {
    var s := msg + eol;
    if eol == "" {
      assert s == msg;
    } else {
      assert s[..|s| - 1] == msg && s[|s| - 1] == '\n';
    }
  }

  lemma {:induction false} GroupsMatchComplete(rest: string, name: string, msg: string)
    requires IsGroups(rest, name, msg)
    ensures GroupsMatch(rest) == Some((name, msg))
  {
    var eol := if rest == name + ": " + msg then "" else "\n";
    var tail := msg + eol;
    assert rest == name + (": " + tail);
    WordRunOf(name, ": " + tail);
    assert rest[..|name|] == name;
    assert rest[|name|..] == ": " + tail;
    assert StartsWith(rest[|name|..], ": ");
    assert rest[|name| + 2..] == tail;
    RestOfLineOf(msg, eol);
  }

  lemma {:induction false} GroupsMatchSound(rest: string, name: string, msg: string)
    requires GroupsMatch(rest) == Some((name, msg))
    ensures IsGroups(rest, name, msg)
  {
    var n := WordRun(rest);
    var line := rest[n + 2..];
    assert rest == rest[..n] + rest[n..n + 2] + line;
    assert rest[n..n + 2] == ": ";
  }

  /** The pattern matches with groups `name` and `msg` exactly when the
      fault string has the shape `IsRpcFault` describes. */
  lemma {:induction false} RpcMatchShape(s: string, name: string, msg: string)
    ensures RpcMatch(s) == Some((name, msg)) <==> IsRpcFault(s, name, msg)
  {
    if IsRpcFault(s, name, msg) {
      GroupsMatchComplete(s[|RPC_PREFIX|..], name, msg);
    }
    if RpcMatch(s) == Some((name, msg)) {
      GroupsMatchSound(s[|RPC_PREFIX|..], name, msg);
    }
  }

  // ---------------------------------------------------------------- from_fault

  const NO_SUCH_METHOD_MSG: string := "No such method"

  /** The message of a matching fault whose class the module does not define. */
  function UnknownClassMsg(faultString: string): string {
    "No Exception class found for \"" + faultString + "\""
  }

  /** `ConfluenceError.from_fault`. */
  function FromFault(f: Fault): (e: Error)
    ensures e.fault.None? <==> StartsWith(f.faultString, NO_SUCH_METHOD)
    ensures e.fault.Some? ==> e.fault.value == f
    ensures e.cls != ConfluenceError ==>
      RpcMatch(f.faultString).Some? && LookupClass(RpcMatch(f.faultString).value.0) == Some(e.cls)
  {
    var s := f.faultString;
    if StartsWith(s, NO_SUCH_METHOD) then Error(ConfluenceError, NO_SUCH_METHOD_MSG, None)
    else
      match RpcMatch(s)
      case None => Error(ConfluenceError, s, Some(f))
      case Some((name, msg)) =>
        match LookupClass(name)
        case Some(c) => Error(c, msg, Some(f))
        case None => Error(ConfluenceError, UnknownClassMsg(s), Some(f))
  }

  /** A missing method gives a plain `ConfluenceError('No such method')` with no fault attached. */
  lemma {:induction false} NoSuchMethodFault(f: Fault)
    requires StartsWith(f.faultString, NO_SUCH_METHOD)
    ensures FromFault(f) == Error(ConfluenceError, NO_SUCH_METHOD_MSG, None)
  {
  }

  /** Such a fault never also has the pattern's shape: the two differ in
      their eleventh character, which is not a wildcard. */
  lemma {:induction false} NoSuchMethodIsNotRpc(s: string, name: string, msg: string)
    requires IsRpcFault(s, name, msg)
    ensures !StartsWith(s, NO_SUCH_METHOD)
  {
    assert CharMatches(RPC_PREFIX[10], s[10]);
    assert NO_SUCH_METHOD[10] != RPC_PREFIX[10];
  }

  /** A fault naming one of the classes raises that class, with the text after `: `. */
  lemma {:induction false} NamedClassFault(f: Fault, c: ErrorClass, msg: string)
    requires IsRpcFault(f.faultString, ClassName(c), msg)
    ensures FromFault(f) == Error(c, msg, Some(f))
  {
    NoSuchMethodIsNotRpc(f.faultString, ClassName(c), msg);
    RpcMatchShape(f.faultString, ClassName(c), msg);
  }

  /** A fault naming any other class raises `ConfluenceError` quoting the whole fault string. */
  lemma {:induction false} UnknownClassFault(f: Fault, name: string, msg: string)
    requires IsRpcFault(f.faultString, name, msg)
    requires forall c :: ClassName(c) != name
    ensures FromFault(f) == Error(ConfluenceError, UnknownClassMsg(f.faultString), Some(f))
  {
    NoSuchMethodIsNotRpc(f.faultString, name, msg);
    RpcMatchShape(f.faultString, name, msg);
    UnknownName(name);
  }

  lemma {:induction false} UnknownName(name: string)
    requires forall c :: ClassName(c) != name
    ensures LookupClass(name) == None
  {
  }

  /** Any other fault raises `ConfluenceError` carrying the whole string and the fault. */
  lemma {:induction false} UnmatchedFault(f: Fault)
    requires !StartsWith(f.faultString, NO_SUCH_METHOD)
    requires forall name, msg :: !IsRpcFault(f.faultString, name, msg)
    ensures FromFault(f) == Error(ConfluenceError, f.faultString, Some(f))
  {
    match RpcMatch(f.faultString)
    case None =>
    case Some((name, msg)) =>
      RpcMatchShape(f.faultString, name, msg);
      assert false;
  }

  // ---------------------------------------------------------------- worked examples

  /** The pattern's prefix matches itself, and matches just as well when its
      last `.` is replaced by any character but a newline. */
  lemma {:induction false} PrefixMatchesLastDot(s: string)
    requires |RPC_PREFIX| <= |s| && s[..|RPC_PREFIX| - 1] == RPC_PREFIX[..|RPC_PREFIX| - 1]
    requires s[|RPC_PREFIX| - 1] != '\n'
    ensures PrefixMatches(s)
  {
    assert RPC_PREFIX[|RPC_PREFIX| - 1] == '.';
    forall i | 0 <= i < |RPC_PREFIX| - 1
      ensures CharMatches(RPC_PREFIX[i], s[i])
    {
      assert s[i] == RPC_PREFIX[..|RPC_PREFIX| - 1][i];
    }
  }

  /** An example fault naming InvalidSessionException, with the message `session expired`. */
  const EXPIRED_SESSION: Fault :=
    Fault(0, RPC_PREFIX + "InvalidSessionException: session expired")

  lemma {:induction false} InvalidSessionIsWord()
    ensures IsWord(ClassName(InvalidSessionException))
  {
  }

  lemma {:induction false} RemoteIsWord()
    ensures IsWord(ClassName(RemoteException))
  {
  }

  /** A fault string of the prefix, a class name of word characters, `: ` and a one-line message has the pattern's shape. */
  lemma {:induction false} ClassFault(s: string, c: ErrorClass, msg: string)
    requires PrefixMatches(s) && s[|RPC_PREFIX|..] == ClassName(c) + ": " + msg && '\n' !in msg
    requires IsWord(ClassName(c))
    ensures IsRpcFault(s, ClassName(c), msg)
  {
  }

  lemma {:induction false} ExpiredSessionFault()
    ensures FromFault(EXPIRED_SESSION) == Error(InvalidSessionException, "session expired", Some(EXPIRED_SESSION))
  {
    var s := EXPIRED_SESSION.faultString;
    assert s[..|RPC_PREFIX| - 1] == RPC_PREFIX[..|RPC_PREFIX| - 1];
    PrefixMatchesLastDot(s);
    assert s[|RPC_PREFIX|..] == ClassName(InvalidSessionException) + ": " + "session expired";
    InvalidSessionIsWord();
    ClassFault(s, InvalidSessionException, "session expired");
    NamedClassFault(EXPIRED_SESSION, InvalidSessionException, "session expired");
  }

  /** An unescaped dot of the pattern accepts another character in its place. */
  lemma {:induction false} WildcardDot()
    ensures var f := Fault(0, RPC_PREFIX[..|RPC_PREFIX| - 1] + "/RemoteException: boom");
      FromFault(f) == Error(RemoteException, "boom", Some(f))
  {
    var f := Fault(0, RPC_PREFIX[..|RPC_PREFIX| - 1] + "/RemoteException: boom");
    var s := f.faultString;
    assert s[..|RPC_PREFIX| - 1] == RPC_PREFIX[..|RPC_PREFIX| - 1];
    PrefixMatchesLastDot(s);
    assert s[|RPC_PREFIX|..] == ClassName(RemoteException) + ": " + "boom";
    RemoteIsWord();
    ClassFault(s, RemoteException, "boom");
    NamedClassFault(f, RemoteException, "boom");
  }
}
