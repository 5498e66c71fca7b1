# Confluence short codes and RPC session, in Dafny

A model of the algorithmic core of a small Python 2 client for Confluence's
XML-RPC API:

- **Short codes** (`confluence/shortcode.py`, `confluence/tinyurl.py`). A page
  id is packed as a native unsigned long, which is eight little-endian bytes on
  a 64-bit little-endian platform. The bytes are base64-encoded and every trailing `A` and `=`
  is stripped. `code2id` puts the `=` padding back before decoding and
  `url2id` does not. Both zero-extend the decoded bytes to eight and read them
  back as a little-endian number.
- **Faults** (`ConfluenceError.from_fault` in `confluence/rpc.py`). An
  XML-RPC fault string is classified by an anchored regular expression into
  one of the module's exception classes and a message.
- **The session** (`Session` in `confluence/rpc.py`). It models:
  - the login token that `do` puts in front of every authenticated call;
  - `login`, `_login`/`_reconnect` and `logout`;
  - the cached `server_info`;
  - the `autorenew` decorator, which retries once after
    InvalidSessionException;
  - how `renderContent` writes `style` into the caller's `parameters` dict.

Modules:

- `Common`: Option and Result.
- `Text`: `rstrip`, `[x] * n` and `startswith`.
- `Struct`: `struct.pack`/`unpack_from('L')`.
- `Base64`: `b64encode`, and Python 2's `b64decode` on alphabet symbols
  followed by `=`.
- `ShortCode` and `TinyUrl`: the two codecs.
- `Faults`: `from_fault` and the regular expression it uses.
- `Rpc`: the session.

The session is modelled in two layers:

- **Specification functions** (`DoStep`, `LoginStep`, `RenewStep`,
  `RenderAsWritten`, ...). Each computes an operation's outcome, the token
  afterwards and the remote calls made.
- **Classes** (`Server`, `Params`, `Session`). These hold the mutable state.
  `Session`'s methods are proved against the specification functions.

The XML-RPC server is an oracle: a function from the call's position and the
call to a reply. The `Server` object keeps the log of calls it received.

A short-code codec is usually expected to keep three promises. The code
keeps them only in part, and the model follows the code:

- Every id in [0, 2^64) comes back: `code2id(id2code(n)) == n`. The code
  breaks this for some ids. `ShortCode.RoundTripExactly` and
  `TinyUrl.RoundTripExactly` state exactly when it holds, and `Code4096`,
  `Code2To26` and `UrlOfOne` give counterexamples.
- A token that decodes to more than eight bytes is an error. The code
  silently uses the first eight (`Struct.ReadULong`).
- A code with one stripped `A` added back still decodes to the id. The code
  refuses it whenever the code's length is a multiple of four, for instance
  `code2id(id2code(0) + 'A')`, which is `code2id('A')`, and otherwise gives
  the id back (`ShortCode.ExtraSymbol`, `ShortCode.ZeroWithExtraSymbol`).

## Model

| member | source | states |
|---|---|---|
| Text.RStrip | confluence/shortcode.py:27 | `rstrip`: the result is a prefix of the input, everything cut off is in the stripped set, and the result does not end in a stripped character |
| Text.Times | confluence/shortcode.py:13-16 | `[x] * n`: n copies of x, and none when n <= 0 |
| Text.StartsWith | confluence/rpc.py:33 | `s.startswith(prefix)`: the prefix is no longer than s and agrees with it character by character |
| Text.RStripTail | confluence/shortcode.py:27 | appending characters from the stripped set does not change the stripped result |
| Struct.Pack | confluence/shortcode.py:25-26 | `struct.pack('L', n)` succeeds exactly for 0 <= n < 2^64 and gives eight bytes whose little-endian value is n; nothing is truncated |
| Struct.UnpackFrom | confluence/shortcode.py:18 | `unpack_from('L')` succeeds exactly on at least eight bytes and gives the first eight read little-endian |
| Struct.ReadULong | confluence/shortcode.py:16-18 | zero-extend then unpack: fewer than eight bytes read as their little-endian value (zeros are added at the most significant end); only the first eight of a longer buffer are used, and there is no error |
| Struct.UnpackPack | confluence/shortcode.py:18-26 | unpacking undoes packing for every in-range id |
| Struct.PackUnpack | confluence/shortcode.py:18-26 | packing undoes unpacking of eight bytes |
| Base64.Encode | confluence/shortcode.py:25 | base64 output is four symbols per started group of three bytes |
| Base64.EncodeShape | confluence/shortcode.py:25 | an encoding is its data symbols followed only by `=` |
| Base64.Decode | confluence/shortcode.py:14 | `b64decode` on symbols then `=`: whole quanta of four symbols become three bytes each, then `DecodeFinal`; the only error is 'Incorrect padding', and there are at most three bytes for every four characters |
| Base64.DecodeFinal | confluence/shortcode.py:14 | the last, unfinished quantum: no symbol gives no byte, one symbol is 'Incorrect padding', two or three symbols need padding to four characters and give one or two bytes |
| Base64.DecodeEncode | confluence/shortcode.py:14-25 | `b64decode(b64encode(bs)) == bs` for every byte string |
| Base64.DecodeOutcome | confluence/shortcode.py:14 | symbols plus `=` decode exactly when the padding completes the final quantum (one leftover symbol never does); the byte count otherwise; "Incorrect padding" on failure |
| Base64.DecodePrefix | confluence/shortcode.py:12-14 | the first n symbols of an encoding, padded, decode to the first DecodedLength(n) bytes, so the bits of an unfinished byte are dropped |
| Base64.ZeroTail | confluence/shortcode.py:27 | symbols stripped as `A`/`=` after whole quanta stood for zero bytes only |
| ShortCode.Id2Code | confluence/shortcode.py:23-30 | `id2code` succeeds exactly for 0 <= id < 2^64; otherwise ValueError('Unable to encode as shortcode: id too large') |
| ShortCode.Padding | confluence/shortcode.py:12-13 | the appended `=` are the fewest (fewer than four) that make the length a multiple of four, and none when it already is |
| ShortCode.CodeValue | confluence/shortcode.py:8-21 | `code2id` on a code: pad, decode, zero-extend and unpack; ValueError('Unable to decode shortcode into id number') exactly when the padded decoding fails, and otherwise a value below 2^64 |
| ShortCode.Code2Id | confluence/shortcode.py:8-21 | `code2id`, written step by step, computes `CodeValue`: a value below 2^64, or ValueError('Unable to decode shortcode into id number') |
| ShortCode.Id2CodeShape | confluence/shortcode.py:25-27 | a code is a prefix of the 12-character encoding, at most 11 symbols long, containing no `=` and not ending in `A`; only `A` and `=` were cut off |
| ShortCode.CodeValueOutcome | confluence/shortcode.py:12-21 | on symbols only, `code2id` fails exactly when the length is 1 mod 4 |
| ShortCode.CodeValueOfId | confluence/shortcode.py:12-27 | `code2id(id2code(n))` fails when the code's length is 1 mod 4, and is otherwise n reduced to the bytes the code's symbols complete |
| ShortCode.WholeQuantaKeepId | confluence/shortcode.py:25-27 | when the code's length is a multiple of four, n fits in the bytes the code decodes to |
| ShortCode.RoundTrip | confluence/shortcode.py:8-30 | `code2id(id2code(n)) == n` when the code's length is a multiple of four or is 11 |
| ShortCode.RoundTripExactly | confluence/shortcode.py:8-30 | `code2id(id2code(n)) == n` if and only if the length is not 1 mod 4 and n fits in the decoded bytes |
| ShortCode.Id2CodeOf | confluence/shortcode.py:25-27 | an id's code is its encoding up to a tail of `A` and `=` |
| ShortCode.ZeroCode | confluence/shortcode.py:12-18 | `id2code(0) == ""` and `code2id("") == 0` |
| ShortCode.Code4096 | confluence/shortcode.py:12-27 | `id2code(4096) == "AB"` but `code2id("AB") == 0` |
| ShortCode.Code2To26 | confluence/shortcode.py:12-27 | `id2code(2^26) == "AAAAB"`, which `code2id` rejects with ValueError |
| ShortCode.ExtraSymbol | confluence/shortcode.py:8-27 | one `A` appended to any id's code is refused with ValueError when the code's length is a multiple of four, and otherwise decodes to the id |
| ShortCode.ZeroWithExtraSymbol | confluence/shortcode.py:8-27 | `id2code(0) == ""`, and `code2id("A")` raises ValueError |
| ShortCode.MaxCode | confluence/shortcode.py:8-30 | `id2code(2^64 - 1) == "//////////8"`, eleven symbols, which `code2id` decodes back to 2^64 - 1; `id2code(2^64)` raises ValueError |
| TinyUrl.Id2Url | confluence/tinyurl.py:19-26 | `id2url` succeeds exactly for 0 <= id < 2^64; otherwise ValueError('page_id too large') |
| TinyUrl.UrlValue | confluence/tinyurl.py:8-17 | `url2id` on a token: decode without adding padding, zero-extend and unpack; ValueError exactly when the decoding fails, and otherwise a value below 2^64 |
| TinyUrl.Url2Id | confluence/tinyurl.py:8-17 | `url2id`, written step by step, computes `UrlValue`: a value below 2^64, or ValueError('Failed to decode shortcode into pageid') |
| TinyUrl.Id2UrlIsId2Code | confluence/tinyurl.py:19-26 | `id2url` and `id2code` agree on every id, including which ids they refuse |
| TinyUrl.UrlValueOutcome | confluence/tinyurl.py:10-17 | with no padding repair, a token of symbols decodes exactly when its length is a multiple of four |
| TinyUrl.EmptyToken | confluence/tinyurl.py:10-14 | `url2id("") == 0` |
| TinyUrl.UrlValueIsCodeValue | confluence/tinyurl.py:10-14 | on tokens whose length is a multiple of four, `url2id` and `code2id` give the same value or both fail |
| TinyUrl.TokenOfId | confluence/tinyurl.py:19-26 | a token is the id's short code: at most 11 alphabet symbols |
| TinyUrl.RoundTripExactly | confluence/tinyurl.py:8-26 | `url2id(id2url(n)) == n` if and only if the token is 0, 4 or 8 symbols long; any other length raises ValueError |
| TinyUrl.UrlOfOne | confluence/tinyurl.py:10-23 | `id2url(1) == "AQ"`, which `url2id` rejects |
| Faults.LookupClass | confluence/rpc.py:40-56 | the class lookup finds a class exactly when the name is that class's name |
| Faults.WordRun | confluence/rpc.py:24 | `(\w+)` takes the longest run of word characters |
| Faults.RestOfLine | confluence/rpc.py:24 | `(.*)$` matches exactly when there is no newline, or a single final one; the group is the line without it |
| Faults.RpcMatchShape | confluence/rpc.py:23-35 | the pattern matches with groups (name, msg) if and only if the fault string is the prefix, a word-character name, `: `, and a one-line message |
| Faults.FromFault | confluence/rpc.py:30-44 | `from_fault`: the exception carries the fault unless the fault string starts with `java.lang.NoSuchMethodException`, and a class other than ConfluenceError is raised only when the pattern matched and named that class |
| Faults.NoSuchMethodFault | confluence/rpc.py:33-34 | a NoSuchMethodException fault gives ConfluenceError('No such method') with no fault attached |
| Faults.NoSuchMethodIsNotRpc | confluence/rpc.py:23-35 | a fault matching the pattern never starts with the NoSuchMethodException prefix |
| Faults.NamedClassFault | confluence/rpc.py:35-56 | a matching fault that names a module exception class raises that class with the text after `: `, and carries the fault |
| Faults.UnknownClassFault | confluence/rpc.py:35-44 | a matching fault that names any other class raises ConfluenceError('No Exception class found for "<fault string>"') |
| Faults.UnmatchedFault | confluence/rpc.py:33-44 | any other fault raises ConfluenceError carrying the whole fault string and the fault |
| Faults.PrefixMatchesLastDot | confluence/rpc.py:24 | the pattern's last unescaped `.` accepts any character but a newline |
| Faults.ExpiredSessionFault | confluence/rpc.py:23-47 | an example fault naming InvalidSessionException with the message `session expired` becomes InvalidSessionException('session expired') |
| Faults.WildcardDot | confluence/rpc.py:24-41 | a fault with `/` in place of the pattern's last `.` is still classified by its class name |
| Rpc.Received | confluence/rpc.py:86-89 | `do` returns a reply's value and raises `from_fault` of a fault |
| Rpc.ExpiredSessionIsInvalid | confluence/rpc.py:12-20 | that example InvalidSessionException fault is an exception `autorenew` catches |
| Rpc.DoStep | confluence/rpc.py:79-89 | with auth and no token, `do` raises 'Not logged in.' and makes no call; otherwise exactly one call, with the token as argument 0 when authenticated and the arguments in order, and the reply is the outcome; the token is unchanged |
| Rpc.LoginStep | confluence/rpc.py:91-103 | `_login` without a stored user raises AttributeError and makes no call; otherwise it makes one unauthenticated `login(user, password)` call; a returned reply makes the login succeed and becomes the token, and a fault raises `from_fault` of it and leaves the token alone |
| Rpc.LogoutStep | confluence/rpc.py:105-109 | `logout` makes the `do('logout')` call and returns its outcome; the token is dropped exactly when the reply is truthy |
| Rpc.RetryStep | confluence/rpc.py:17-19 | `_reconnect()` then the call again: at most two calls, none exactly when there is no stored user; when both calls are made, the first is `login(user, password)`, the second is the call with the new token, and its reply is the outcome |
| Rpc.RenewStep | confluence/rpc.py:12-20 | an `autorenew` method forwarding to `do`: at most three calls, and none exactly when there is no token |
| Rpc.RenewRetriesOnce | confluence/rpc.py:12-20 | `autorenew` makes at most three calls; anything but InvalidSessionException passes through unchanged; after it come one login and one retry with the new token, whose outcome is final; a missing user or a faulted re-login is raised as the final outcome, with the token unchanged |
| Rpc.RenewReplacesToken | confluence/rpc.py:12-20 | a rejected token is replaced by the one a successful re-login returns, and the call is repeated with it |
| Rpc.RenderAttempt | confluence/rpc.py:141-153 | `style` given both ways raises ValueError before any call and leaves the dict alone; otherwise `style` is added to the dict, which then goes to `do('renderContent', ...)` with absent keywords as `''` |
| Rpc.RenderRetry | confluence/rpc.py:17-19 | the retry of `renderContent`: at most two calls, none exactly when there is no stored user; the caller's dict stays a dict and loses no key |
| Rpc.RenderAsWritten | confluence/rpc.py:140-154 | `renderContent` under `autorenew` as written: at most three calls, none exactly when there is no token or `style` is given both ways; the caller's dict stays a dict and loses no key |
| Rpc.RenderCopied | confluence/rpc.py:140-154 | `renderContent` merging into a copy, under `autorenew`: at most three calls, none exactly when there is no token or `style` is given both ways |
| Rpc.RetryRejectsOwnStyle | confluence/rpc.py:12-20 | as written, a retried `renderContent` with a `style` keyword raises ValueError after the login, and the caller's dict keeps the added `style` |
| Rpc.RetryRendersAgain | confluence/rpc.py:140-154 | merging into a copy, the same retry calls `renderContent` again with the new token and the same arguments |
| Rpc.CopyChangesOnlyTheRetry | confluence/rpc.py:140-154 | the copy makes no difference to the outcome, the token or the calls made unless the first call hit InvalidSessionException with a caller's dict (the caller's dict itself differs: only the code as written adds `style` to it) |
| Rpc.Server.Invoke | confluence/rpc.py:87 | the server logs the call and answers it by the oracle |
| Rpc.Session.constructor | confluence/rpc.py:59-77 | a new session has no token, no stored user, no cached server info, and raises faults through `from_fault` |
| Rpc.Session.Do | confluence/rpc.py:79-89 | `do` behaves as `DoStep`, and the server's log grows by exactly the calls made |
| Rpc.Session.Relogin | confluence/rpc.py:91-98 | `_login`/`_reconnect` behave as `LoginStep` and update the token in place |
| Rpc.Session.Login | confluence/rpc.py:100-103 | `login` stores the credentials, then behaves as `LoginStep` on them |
| Rpc.Session.Logout | confluence/rpc.py:105-109 | `logout` behaves as `LogoutStep` |
| Rpc.Session.Retry | confluence/rpc.py:17-19 | the second chance behaves as `RetryStep`: re-login, then the call again |
| Rpc.Session.Renew | confluence/rpc.py:121-185 | an `autorenew` forwarding method behaves as `RenewStep`; the credentials and the cache are untouched |
| Rpc.Session.ServerInfo | confluence/rpc.py:111-123 | `server_info` returns the cached value with no call once it has one; otherwise it fetches through `getServerInfo` under `autorenew` and caches a successful result |
| Rpc.Session.RenderBody | confluence/rpc.py:141-153 | one run of the body behaves as `RenderAttempt` and leaves the caller's dict as `RenderAttempt` says |
| Rpc.Session.RetryRender | confluence/rpc.py:17-19 | the retry re-logs in and runs the body again on the caller's dict as it now is |
| Rpc.Session.RenderContent | confluence/rpc.py:140-154 | `renderContent` under `autorenew` behaves as `RenderAsWritten`, including what happens to the caller's dict |
| Rpc.Session.RenderBodyCopy | confluence/rpc.py:141-153 | the corrected body merges into a copy and leaves the caller's dict alone |
| Rpc.Session.RetryRenderCopy | confluence/rpc.py:17-19 | the corrected retry starts again from the caller's unchanged dict |
| Rpc.Session.RenderContentCopy | confluence/rpc.py:140-154 | the corrected `renderContent` behaves as `RenderCopied` |

## Left out

- The XML-RPC transport (`xmlrpclib.ServerProxy`, URL assembly from host, ssl and path, `verbose`, `use_datetime`). The server is an oracle answering by call position and call.
- The forwarding methods' response shaping: `ServerInfo`, `SpaceSummary`, `Page`, `Label`, `SearchResult` and `confluence_long` are defined outside this model. `confluence/types.py` is not part of this model. Each forwarding method is `Rpc.Session.Renew` with its method name and arguments. `getPageById`'s `str(int(page_id))` and the argument order of `getPageByTitle` and `getLabelsByDetail` are left to the caller.
- Logging calls and the `print` in `from_fault`: their output is not modelled. The messages they format can raise, as the next two lines say; a `print` of a non-ASCII fault string can raise UnicodeEncodeError on a terminal without UTF-8; that exception is not modelled.
- Rpc.LoginStep, Rpc.Session.Relogin and Rpc.Session.Login: the stored user and the token are taken to be ASCII text. For a non-ASCII `unicode` user, formatting the debug message with the user at confluence/rpc.py:92 raises UnicodeEncodeError before any `login` call, where the model makes the call; for a non-ASCII `unicode` token, the `format` at confluence/rpc.py:94 raises after `self._token` is set, where the model returns.
- Faults.FromFault and Faults.UnknownClassFault: fault strings are taken as ASCII text. `xmlrpclib` hands over a non-ASCII fault string as `unicode`. For such a string, `'No Exception class found for "{0}"'.format(msg)` raises UnicodeEncodeError, and the model gives the ConfluenceError message instead.
- `make_short_url` and `base_url`: URL joining and attribute reads that use library code.
- 4-byte `long` platforms and big-endian platforms: native `'L'` is fixed as eight little-endian bytes.
- Code2Id and Url2Id: `array.fromlist` extends the decoded array in place; the model appends the zero bytes to a local sequence. The array is local to the call, so no caller sees the difference.
- `long(page_id)` on strings or floats: ids are integers.
- `b64decode` skipping characters outside the alphabet. Decoder inputs are alphabet symbols followed only by `=` (`Base64.IsPadded`), which is the `requires` of `ShortCode.Code2Id`, `ShortCode.CodeValue`, `TinyUrl.Url2Id` and `TinyUrl.UrlValue`.
- In `from_fault`, `getattr` of module names that are not exception classes (`Session`, `re`, ...). Looking such a name up as a class is not modelled; only the five exception classes are found.
- Rpc.Remote: properties of the session are stated for any mapping from faults to exceptions. `Faults.FromFault` is the mapping every `Rpc.Session` uses (its constructor's `ensures`). This keeps the session proofs independent of the fault classifier's text matching.
- Rpc.RenderAttempt and Rpc.Session.RenderBody: an explicit `parameters=None` is not modelled. A missing `parameters` (a null `Params`) stands for the keyword being absent, which `kwargs.get('parameters', {})` turns into a fresh empty dict. With an explicit None the code would raise TypeError at `'style' in parameters` when `style` is given, and would otherwise send None as the fourth argument of `renderContent`; the model promises neither.
- The `auto_renew` option (confluence/rpc.py:63) is kept in `Session.autoRenew` and nothing reads it, as in the code: every `autorenew` method retries whatever its value.

## Findings

| source | as written | input that shows it | evidently intended | confidence | as-written member | corrected member |
|---|---|---|---|---|---|---|
| confluence/rpc.py:12-20, 140-154 | `autorenew` calls `renderContent` again with the same keyword arguments, and the first run has already written `style` into the caller's `parameters` dict | `renderContent(style='x', parameters={})` when the server answers the first call with InvalidSessionException and the re-login succeeds | the retry renders again with the new token: `style` merged into a copy, so each run starts from the caller's dict as given | not executed | Rpc.RetryRejectsOwnStyle | Rpc.RetryRendersAgain |
