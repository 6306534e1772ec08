/**
 * The `OpenSsl` helper: line-ending detection and re-wrapping of a PEM
 * `PUBLIC KEY` block, and the control skeleton of the four RSA
 * encrypt/decrypt calls. The OpenSSL extension and the base64 functions are
 * an `Engine` whose answers are given, uninterpreted, as functions; the
 * engine keeps the error queue that `openssl_error_string` pops from and a
 * log of every OpenSSL call made into it (the base64 functions are not logged).
 */
module OpenSsl {
  import opened Wrappers
  import Php

  const PublicKeyBegin: string := "-----BEGIN PUBLIC KEY-----"
  const PublicKeyEnd: string := "-----END PUBLIC KEY-----"
  const LinuxEol: string := "\n"
  const WindowsEol: string := "\r\n"

  /** The line break `clearPublicKey` uses for its boolean argument. */
  function Eol(isLinux: bool): string {
    if isLinux then LinuxEol else WindowsEol
  }

  /** The header line with its line break, as a block starts. */
  function Header(eol: string): string {
    PublicKeyBegin + eol
  }

  /** The footer line with the line break before and after it, as a block ends. */
  function Footer(eol: string): string {
    eol + PublicKeyEnd + eol
  }

  /**
   * The BEGIN line is 26 characters, so the body `clearPublicKey` keeps
   * starts at offset 27 with LF and 28 with CRLF; the footer it appends is
   * 26 or 28 characters.
   */
  lemma PemLineLengths()
    ensures |Header(Eol(true))| == 27 && |Header(Eol(false))| == 28
    ensures |Footer(Eol(true))| == 26 && |Footer(Eol(false))| == 28
  {
  }

  /** `t` occurs somewhere in `s`. */
  ghost predicate Contains(s: string, t: string) {
    exists j :: Php.OccursAt(s, t, j)
  }

  /** The truth value of the string or `false` that `strstr` returns. */
  predicate Found(r: Option<string>) {
    r.Some? && Php.Truthy(r.value)
  }

  /** The two header forms differ in the character after the BEGIN marker. */
  lemma HeadersExclusive(s: string)
    ensures Php.StartsWith(s, Header(LinuxEol)) ==> !Php.StartsWith(s, Header(WindowsEol))
  {
    if Php.StartsWith(s, Header(LinuxEol)) {
      assert s[|PublicKeyBegin|] == Header(LinuxEol)[|PublicKeyBegin|] == '\n';
    }
  }

  /**
   * `isPublicKeyLinuxEOL`: `Some(true)` for a block written with LF line
   * breaks, `Some(false)` for CRLF, `None` (PHP's `null`) when neither test passes.
   */
  function IsPublicKeyLinuxEol(publicKey: string): (r: Option<bool>)
    ensures r == Some(true) <==>
      Php.StartsWith(publicKey, Header(LinuxEol)) && Contains(publicKey, PublicKeyEnd + LinuxEol)
    ensures r == Some(false) <==>
      Php.StartsWith(publicKey, Header(WindowsEol)) && Contains(publicKey, PublicKeyEnd + WindowsEol)
    ensures r == None <==>
      && !(Php.StartsWith(publicKey, Header(LinuxEol)) && Contains(publicKey, PublicKeyEnd + LinuxEol))
      && !(Php.StartsWith(publicKey, Header(WindowsEol)) && Contains(publicKey, PublicKeyEnd + WindowsEol))
  {
    HeadersExclusive(publicKey);
    if Php.Strpos(publicKey, PublicKeyBegin + LinuxEol) == Some(0)
       && Found(Php.Strstr(publicKey, PublicKeyEnd + LinuxEol)) then
      Some(true)
    else if Php.Strpos(publicKey, PublicKeyBegin + WindowsEol) == Some(0)
       && Found(Php.Strstr(publicKey, PublicKeyEnd + WindowsEol)) then
      Some(false)
    else
      None
  }

  /** A header written with one line break and no footer written with it gives `None`. */
  lemma MixedLineEndingsUndetermined(publicKey: string)
    ensures Php.StartsWith(publicKey, Header(LinuxEol)) && !Contains(publicKey, PublicKeyEnd + LinuxEol)
            ==> IsPublicKeyLinuxEol(publicKey) == None
    ensures Php.StartsWith(publicKey, Header(WindowsEol)) && !Contains(publicKey, PublicKeyEnd + WindowsEol)
            ==> IsPublicKeyLinuxEol(publicKey) == None
  {
    HeadersExclusive(publicKey);
  }

  /** A block written throughout with LF is detected as LF; one written with CRLF as CRLF. */
  lemma UniformBlocksDetected(body: string)
    ensures IsPublicKeyLinuxEol(Header(LinuxEol) + body + Footer(LinuxEol)) == Some(true)
    ensures IsPublicKeyLinuxEol(Header(WindowsEol) + body + Footer(WindowsEol)) == Some(false)
  {
    var unix := Header(LinuxEol) + body + Footer(LinuxEol);
    var at := |Header(LinuxEol)| + |body| + |LinuxEol|;
    assert unix[..|Header(LinuxEol)|] == Header(LinuxEol);
    assert unix[at..at + |PublicKeyEnd + LinuxEol|] == PublicKeyEnd + LinuxEol;
    assert Php.OccursAt(unix, PublicKeyEnd + LinuxEol, at);
    var windows := Header(WindowsEol) + body + Footer(WindowsEol);
    var at' := |Header(WindowsEol)| + |body| + |WindowsEol|;
    assert windows[..|Header(WindowsEol)|] == Header(WindowsEol);
    assert windows[at'..at' + |PublicKeyEnd + WindowsEol|] == PublicKeyEnd + WindowsEol;
    assert Php.OccursAt(windows, PublicKeyEnd + WindowsEol, at');
  }

  /**
   * `clearPublicKey`: the header, then what lies between the header and the
   * first footer, then the footer. Where the footer is missing `strpos`
   * gives `false`, which counts as 0 in the length computed for `substr`.
   */
  function ClearPublicKey(isLinuxPublicKeyEol: bool, publicKey: string): (r: string)
    ensures Php.StartsWith(r, Header(Eol(isLinuxPublicKeyEol)))
    ensures Php.EndsWith(r, Footer(Eol(isLinuxPublicKeyEol)))
  {
    var eol := Eol(isLinuxPublicKeyEol);
    Rewrap(Header(eol), Footer(eol), publicKey)
  }

  /** The body of `clearPublicKey` for a given header and footer. */
  function Rewrap(header: string, footer: string, publicKey: string): (r: string)
    ensures Php.StartsWith(r, header) && Php.EndsWith(r, footer)
  {
    var f := |header|;
    var footerAt := match Php.Strpos(publicKey, footer)
                    case Some(i) => i
                    case None => 0;
    var body := Php.Substr(publicKey, f, footerAt - f);
    Php.ConcatEnds(header, body, footer);
    header + body + footer
  }

  /** `publicKey` starts with `header`, and its first `footer` starts after the header. */
  predicate FramedBy(header: string, footer: string, publicKey: string) {
    && Php.StartsWith(publicKey, header)
    && match Php.Strpos(publicKey, footer)
       case Some(i) => i >= |header|
       case None => false
  }

  /** A block framed by the header and footer for `eol`. */
  predicate Framed(eol: string, publicKey: string) {
    FramedBy(Header(eol), Footer(eol), publicKey)
  }

  /** Where the first footer of a framed block ends. */
  function BlockEnd(header: string, footer: string, publicKey: string): (n: nat)
    requires FramedBy(header, footer, publicKey)
    ensures n <= |publicKey| && Php.EndsWith(publicKey[..n], footer)
  {
    var i := Php.Strpos(publicKey, footer).value;
    assert publicKey[..i + |footer|][i..] == footer;
    i + |footer|
  }

  function FirstBlockEnd(eol: string, publicKey: string): (n: nat)
    requires Framed(eol, publicKey)
    ensures n <= |publicKey| && Php.EndsWith(publicKey[..n], Footer(eol))
  {
    BlockEnd(Header(eol), Footer(eol), publicKey)
  }

  lemma RewrapKeepsBlock(header: string, footer: string, publicKey: string)
    requires FramedBy(header, footer, publicKey)
    ensures Rewrap(header, footer, publicKey) == publicKey[..BlockEnd(header, footer, publicKey)]
  {
    var i := Php.Strpos(publicKey, footer).value;
    var f := |header|;
    var n := i + |footer|;
    assert Php.Substr(publicKey, f, i - f) == publicKey[f..i];
    assert publicKey[..n] == publicKey[..f] + publicKey[f..i] + publicKey[i..n];
  }

  /**
   * On a framed block, `clearPublicKey` keeps exactly the text up to the
   * end of the first footer, dropping whatever follows it.
   */
  lemma ClearPublicKeyKeepsFirstBlock(isLinuxPublicKeyEol: bool, publicKey: string)
    requires Framed(Eol(isLinuxPublicKeyEol), publicKey)
    ensures ClearPublicKey(isLinuxPublicKeyEol, publicKey)
            == publicKey[..FirstBlockEnd(Eol(isLinuxPublicKeyEol), publicKey)]
  {
    var eol := Eol(isLinuxPublicKeyEol);
    RewrapKeepsBlock(Header(eol), Footer(eol), publicKey);
  }

  lemma BlockFramed(header: string, footer: string, publicKey: string)
    requires FramedBy(header, footer, publicKey)
    ensures FramedBy(header, footer, publicKey[..BlockEnd(header, footer, publicKey)])
    ensures BlockEnd(header, footer, publicKey[..BlockEnd(header, footer, publicKey)])
            == BlockEnd(header, footer, publicKey)
  {
    var n := BlockEnd(header, footer, publicKey);
    var cut := publicKey[..n];
    var i := Php.Strpos(publicKey, footer).value;
    assert cut[..|header|] == publicKey[..|header|];
    assert Php.OccursAt(cut, footer, i) by {
      assert cut[i..i + |footer|] == publicKey[i..i + |footer|];
    }
    forall j | 0 <= j < i
      ensures !Php.OccursAt(cut, footer, j)
    {
      assert !Php.OccursAt(publicKey, footer, j);
      assert cut[j..j + |footer|] == publicKey[j..j + |footer|];
    }
  }

  /** Cutting a framed block right after its first footer leaves it framed, with the same footer. */
  lemma FirstBlockFramed(eol: string, publicKey: string)
    requires Framed(eol, publicKey)
    ensures Framed(eol, publicKey[..FirstBlockEnd(eol, publicKey)])
    ensures FirstBlockEnd(eol, publicKey[..FirstBlockEnd(eol, publicKey)]) == FirstBlockEnd(eol, publicKey)
  {
    BlockFramed(Header(eol), Footer(eol), publicKey);
  }

  /** `clearPublicKey` changes nothing the second time it is applied to a framed block. */
  lemma ClearPublicKeyIdempotent(isLinuxPublicKeyEol: bool, publicKey: string)
    requires Framed(Eol(isLinuxPublicKeyEol), publicKey)
    ensures ClearPublicKey(isLinuxPublicKeyEol, ClearPublicKey(isLinuxPublicKeyEol, publicKey))
            == ClearPublicKey(isLinuxPublicKeyEol, publicKey)
  {
    var eol := Eol(isLinuxPublicKeyEol);
    var n := FirstBlockEnd(eol, publicKey);
    ClearPublicKeyKeepsFirstBlock(isLinuxPublicKeyEol, publicKey);
    FirstBlockFramed(eol, publicKey);
    ClearPublicKeyKeepsFirstBlock(isLinuxPublicKeyEol, publicKey[..n]);
    assert publicKey[..n][..n] == publicKey[..n];
  }

  // ---------------------------------------------------------------------
  // The engine boundary
  // ---------------------------------------------------------------------

  /** An opaque handle to a parsed key, as `openssl_pkey_get_*` return it. */
  datatype KeyHandle = KeyHandle(id: nat)

  /**
   * An engine primitive's answer: a value or failure, with the messages it
   * queues either way (a key that parses may still leave the messages of an
   * attempt that failed on the way).
   */
  datatype EngineResult<T> = Done(value: T, diagnostics: seq<string>) | Failed(diagnostics: seq<string>)

  /** One call into the OpenSSL extension, as recorded in the engine's log. */
  datatype EngineCall =
    | GetPrivateKey(pem: string)
    | GetPublicKey(pem: string)
    | PrivateEncrypt(data: string, key: KeyHandle)
    | PublicEncrypt(data: string, key: KeyHandle)
    | PublicDecrypt(data: string, key: KeyHandle)
    | PrivateDecrypt(data: string, key: KeyHandle)
    | FreeKey(key: KeyHandle)
    | ErrorString

  /** `n` calls of `openssl_error_string`. */
  function ErrorStringCalls(n: nat): (r: seq<EngineCall>)
    ensures |r| == n && forall i :: 0 <= i < n ==> r[i] == ErrorString
  {
    seq(n, _ => ErrorString)
  }

  /**
   * The OpenSSL extension and base64 functions as one object: the primitives
   * answer as the given functions do, every primitive, failing or not,
   * appends its diagnostics to `errorQueue`, and every OpenSSL call is
   * appended to `calls`; the base64 functions are pure and not logged.
   */
  class Engine {
    var errorQueue: seq<string>
    var calls: seq<EngineCall>
    const parsePrivateKey: string -> EngineResult<KeyHandle>
    const parsePublicKey: string -> EngineResult<KeyHandle>
    const privateEncrypt: (string, KeyHandle) -> EngineResult<string>
    const publicEncrypt: (string, KeyHandle) -> EngineResult<string>
    const publicDecrypt: (string, KeyHandle) -> EngineResult<string>
    const privateDecrypt: (string, KeyHandle) -> EngineResult<string>
    const base64Encode: string -> string
    const base64Decode: string -> string

    constructor (
      pending: seq<string>,
      parsePrivateKey: string -> EngineResult<KeyHandle>,
      parsePublicKey: string -> EngineResult<KeyHandle>,
      privateEncrypt: (string, KeyHandle) -> EngineResult<string>,
      publicEncrypt: (string, KeyHandle) -> EngineResult<string>,
      publicDecrypt: (string, KeyHandle) -> EngineResult<string>,
      privateDecrypt: (string, KeyHandle) -> EngineResult<string>,
      base64Encode: string -> string,
      base64Decode: string -> string)
      ensures errorQueue == pending && calls == []
      ensures this.parsePrivateKey == parsePrivateKey && this.parsePublicKey == parsePublicKey
      ensures this.privateEncrypt == privateEncrypt && this.publicEncrypt == publicEncrypt
      ensures this.publicDecrypt == publicDecrypt && this.privateDecrypt == privateDecrypt
      ensures this.base64Encode == base64Encode && this.base64Decode == base64Decode
    {
      errorQueue, calls := pending, [];
      this.parsePrivateKey, this.parsePublicKey := parsePrivateKey, parsePublicKey;
      this.privateEncrypt, this.publicEncrypt := privateEncrypt, publicEncrypt;
      this.publicDecrypt, this.privateDecrypt := publicDecrypt, privateDecrypt;
      this.base64Encode, this.base64Decode := base64Encode, base64Decode;
    }

    /** The primitive answered `outcome`: `r` holds its value, and its diagnostics were queued after `before`. */
    ghost predicate Answered<T>(outcome: EngineResult<T>, r: Option<T>, before: seq<string>)
      reads this
    {
      && errorQueue == before + outcome.diagnostics
      && match outcome
         case Done(v, _) => r == Some(v)
         case Failed(_) => r == None
    }

    method Primitive<T>(outcome: EngineResult<T>, call: EngineCall) returns (r: Option<T>)
      modifies this
      ensures calls == old(calls) + [call]
      ensures Answered(outcome, r, old(errorQueue))
    {
      calls := calls + [call];
      errorQueue := errorQueue + outcome.diagnostics;
      match outcome
      case Done(v, _) =>
        r := Some(v);
      case Failed(_) =>
        r := None;
    }

    /** `openssl_pkey_get_private` (also spelt `openssl_get_privatekey`). */
    method GetPrivateKey(pem: string) returns (key: Option<KeyHandle>)
      modifies this
      ensures calls == old(calls) + [EngineCall.GetPrivateKey(pem)]
      ensures Answered(parsePrivateKey(pem), key, old(errorQueue))
    {
      key := Primitive(parsePrivateKey(pem), EngineCall.GetPrivateKey(pem));
    }

    /** `openssl_pkey_get_public` (also spelt `openssl_get_publickey`). */
    method GetPublicKey(pem: string) returns (key: Option<KeyHandle>)
      modifies this
      ensures calls == old(calls) + [EngineCall.GetPublicKey(pem)]
      ensures Answered(parsePublicKey(pem), key, old(errorQueue))
    {
      key := Primitive(parsePublicKey(pem), EngineCall.GetPublicKey(pem));
    }

    /** `openssl_private_encrypt`; `None` is its `false`. */
    method PrivateEncrypt(data: string, key: KeyHandle) returns (result: Option<string>)
      modifies this
      ensures calls == old(calls) + [EngineCall.PrivateEncrypt(data, key)]
      ensures Answered(privateEncrypt(data, key), result, old(errorQueue))
    {
      result := Primitive(privateEncrypt(data, key), EngineCall.PrivateEncrypt(data, key));
    }

    /** `openssl_public_encrypt`; `None` is its `false`. */
    method PublicEncrypt(data: string, key: KeyHandle) returns (result: Option<string>)
      modifies this
      ensures calls == old(calls) + [EngineCall.PublicEncrypt(data, key)]
      ensures Answered(publicEncrypt(data, key), result, old(errorQueue))
    {
      result := Primitive(publicEncrypt(data, key), EngineCall.PublicEncrypt(data, key));
    }

    /** `openssl_public_decrypt`; `None` is its `false`. */
    method PublicDecrypt(data: string, key: KeyHandle) returns (result: Option<string>)
      modifies this
      ensures calls == old(calls) + [EngineCall.PublicDecrypt(data, key)]
      ensures Answered(publicDecrypt(data, key), result, old(errorQueue))
    {
      result := Primitive(publicDecrypt(data, key), EngineCall.PublicDecrypt(data, key));
    }

    /** `openssl_private_decrypt`; `None` is its `false`. */
    method PrivateDecrypt(data: string, key: KeyHandle) returns (result: Option<string>)
      modifies this
      ensures calls == old(calls) + [EngineCall.PrivateDecrypt(data, key)]
      ensures Answered(privateDecrypt(data, key), result, old(errorQueue))
    {
      result := Primitive(privateDecrypt(data, key), EngineCall.PrivateDecrypt(data, key));
    }

    /** `openssl_free_key`. */
    method FreeKey(key: KeyHandle)
      modifies this
      ensures calls == old(calls) + [EngineCall.FreeKey(key)]
      ensures errorQueue == old(errorQueue)
    {
      calls := calls + [EngineCall.FreeKey(key)];
    }

    /** `openssl_error_string`: pops the oldest queued message; `None` is its `false`. */
    method ErrorString() returns (message: Option<string>)
      modifies this
      ensures calls == old(calls) + [EngineCall.ErrorString]
      ensures old(errorQueue) == [] ==> message == None && errorQueue == []
      ensures old(errorQueue) != [] ==> message == Some(old(errorQueue)[0]) && errorQueue == old(errorQueue)[1..]
    {
      calls := calls + [EngineCall.ErrorString];
      if errorQueue == [] {
        message := None;
      } else {
        message := Some(errorQueue[0]);
        errorQueue := errorQueue[1..];
      }
    }
  }

  // ---------------------------------------------------------------------
  // Draining the error queue
  // ---------------------------------------------------------------------

  /**
   * The messages `while ($msg = openssl_error_string())` collects: the
   * longest prefix of the queue whose messages are all truthy.
   */
  function DrainedMessages(queue: seq<string>): (r: seq<string>)
    ensures |r| <= |queue| && r == queue[..|r|]
    ensures forall i :: 0 <= i < |r| ==> Php.Truthy(r[i])
    ensures |r| < |queue| ==> !Php.Truthy(queue[|r|])
  {
    if queue == [] || !Php.Truthy(queue[0]) then []
    else [queue[0]] + DrainedMessages(queue[1..])
  }

  /** The queue after that loop: the falsy message that stopped it is popped too. */
  function QueueAfterDrain(queue: seq<string>): seq<string> {
    var n := |DrainedMessages(queue)|;
    if n < |queue| then queue[n + 1..] else []
  }

  /** What `'...' . openssl_error_string()` appends: the oldest message, or "" for `false`. */
  function Oldest(queue: seq<string>): string {
    if queue == [] then "" else queue[0]
  }

  /** The queue after one `openssl_error_string` call. */
  function Popped(queue: seq<string>): seq<string> {
    if queue == [] then [] else queue[1..]
  }

  /** A truthy prefix that stops at the end of the queue or at a falsy message is what the loop drains. */
  lemma {:induction false} DrainedMessagesUnique(queue: seq<string>, errors: seq<string>)
    requires |errors| <= |queue| && errors == queue[..|errors|]
    requires forall i :: 0 <= i < |errors| ==> Php.Truthy(errors[i])
    requires |errors| < |queue| ==> !Php.Truthy(queue[|errors|])
    ensures DrainedMessages(queue) == errors
  {
    if errors != [] {
      assert queue[0] == errors[0];
      assert errors[1..] == queue[1..][..|errors| - 1];
      DrainedMessagesUnique(queue[1..], errors[1..]);
    }
  }

  /**
   * When every queued message is truthy the loop empties the queue and the
   * joined text splits back into exactly the queued messages, provided none
   * of them holds a line break.
   */
  lemma {:induction false} JoinedErrorsListEveryMessage(queue: seq<string>)
    requires queue != []
    requires forall i :: 0 <= i < |queue| ==> Php.Truthy(queue[i]) && '\n' !in queue[i]
    ensures DrainedMessages(queue) == queue && QueueAfterDrain(queue) == []
    ensures Php.Explode('\n', Php.Implode('\n', DrainedMessages(queue))) == queue
  {
    DrainedMessagesUnique(queue, queue);
    Php.ExplodeImplode('\n', queue);
  }

  /** The `while ($msg = openssl_error_string())` loop of the two encrypt calls. */
  method DrainErrors(engine: Engine) returns (errors: seq<string>)
    modifies engine
    ensures errors == DrainedMessages(old(engine.errorQueue))
    ensures engine.errorQueue == QueueAfterDrain(old(engine.errorQueue))
    ensures engine.calls == old(engine.calls) + ErrorStringCalls(|errors| + 1)
  {
    ghost var queue := engine.errorQueue;
    errors := [];
    while true
      invariant queue == errors + engine.errorQueue
      invariant forall i :: 0 <= i < |errors| ==> Php.Truthy(errors[i])
      invariant engine.calls == old(engine.calls) + ErrorStringCalls(|errors|)
      decreases |engine.errorQueue|
    {
      var message := engine.ErrorString();
      if message.None? || !Php.Truthy(message.value) {
        assert queue[..|errors|] == errors;
        DrainedMessagesUnique(queue, errors);
        assert ErrorStringCalls(|errors|) + [ErrorString] == ErrorStringCalls(|errors| + 1);
        if message.Some? {
          assert queue[|errors| + 1..] == engine.errorQueue;
        }
        break;
      }
      assert ErrorStringCalls(|errors|) + [ErrorString] == ErrorStringCalls(|errors| + 1);
      errors := errors + [message.value];
    }
  }

  // ---------------------------------------------------------------------
  // The cipher
  // ---------------------------------------------------------------------

  const ErrorPrefix: string := "Open ssl error : "
  const PrivateKeyEmpty: string := "Open ssl error : private key empty"
  const PublicKeyEmpty: string := "Open ssl error : public key empty"

  /** The input a decrypt call hands to the engine. */
  function Framing(decode: string -> string, value: string, decodeBase64: bool): string {
    if decodeBase64 then decode(value) else value
  }

  /**
   * An `OpenSsl` object: its two optional keys are set by the constructor
   * and never reassigned. A failed call is `Failure` with the text of the
   * exception it throws.
   */
  class OpenSsl {
    const privateKey: Option<string>
    const publicKey: Option<string>

    constructor (privateKey: Option<string> := None, publicKey: Option<string> := None)
      ensures this.privateKey == privateKey && this.publicKey == publicKey
    {
      this.privateKey := privateKey;
      this.publicKey := publicKey;
    }

    /** `encryptWithPrivate`. */
    method EncryptWithPrivate(engine: Engine, value: string, encodeBase64: bool := true)
      returns (r: Result<string, string>)
      modifies engine
      ensures Php.EmptyNullable(privateKey) ==>
        && r == Failure(PrivateKeyEmpty)
        && engine.calls == old(engine.calls) && engine.errorQueue == old(engine.errorQueue)
      ensures !Php.EmptyNullable(privateKey) && engine.parsePrivateKey(privateKey.value).Failed? ==>
        var pending := old(engine.errorQueue) + engine.parsePrivateKey(privateKey.value).diagnostics;
        && r == Failure(ErrorPrefix + Php.Implode('\n', DrainedMessages(pending)))
        && engine.errorQueue == QueueAfterDrain(pending)
        && engine.calls == old(engine.calls) + [GetPrivateKey(privateKey.value)]
                           + ErrorStringCalls(|DrainedMessages(pending)| + 1)
      ensures !Php.EmptyNullable(privateKey) && engine.parsePrivateKey(privateKey.value).Done? ==>
        var parsed := engine.parsePrivateKey(privateKey.value);
        var key := parsed.value;
        var cipher := engine.privateEncrypt(value, key);
        var pending := old(engine.errorQueue) + parsed.diagnostics + cipher.diagnostics;
        var done := old(engine.calls) + [GetPrivateKey(privateKey.value), PrivateEncrypt(value, key), FreeKey(key)];
        && (cipher.Done? ==>
              && r == Success(if encodeBase64 then engine.base64Encode(cipher.value) else cipher.value)
              && engine.errorQueue == pending && engine.calls == done)
        && (cipher.Failed? ==>
              && r == Failure(ErrorPrefix + Oldest(pending))
              && engine.errorQueue == Popped(pending) && engine.calls == done + [ErrorString])
    {
      if Php.EmptyNullable(privateKey) {
        return Failure(PrivateKeyEmpty);
      }
      var key := engine.GetPrivateKey(privateKey.value);
      if key.None? {
        var errors := DrainErrors(engine);
        return Failure(ErrorPrefix + Php.Implode('\n', errors));
      }
      var result := engine.PrivateEncrypt(value, key.value);
      engine.FreeKey(key.value);
      if result.None? {
        var message := engine.ErrorString();
        return Failure(ErrorPrefix + message.GetOr(""));
      }
      return Success(if encodeBase64 then engine.base64Encode(result.value) else result.value);
    }

    /** `encryptWithPublic`. */
    method EncryptWithPublic(engine: Engine, value: string, encodeBase64: bool := true)
      returns (r: Result<string, string>)
      modifies engine
      ensures Php.EmptyNullable(publicKey) ==>
        && r == Failure(PublicKeyEmpty)
        && engine.calls == old(engine.calls) && engine.errorQueue == old(engine.errorQueue)
      ensures !Php.EmptyNullable(publicKey) && engine.parsePublicKey(publicKey.value).Failed? ==>
        var pending := old(engine.errorQueue) + engine.parsePublicKey(publicKey.value).diagnostics;
        && r == Failure(ErrorPrefix + Php.Implode('\n', DrainedMessages(pending)))
        && engine.errorQueue == QueueAfterDrain(pending)
        && engine.calls == old(engine.calls) + [GetPublicKey(publicKey.value)]
                           + ErrorStringCalls(|DrainedMessages(pending)| + 1)
      ensures !Php.EmptyNullable(publicKey) && engine.parsePublicKey(publicKey.value).Done? ==>
        var parsed := engine.parsePublicKey(publicKey.value);
        var key := parsed.value;
        var cipher := engine.publicEncrypt(value, key);
        var pending := old(engine.errorQueue) + parsed.diagnostics + cipher.diagnostics;
        var done := old(engine.calls) + [GetPublicKey(publicKey.value), PublicEncrypt(value, key), FreeKey(key)];
        && (cipher.Done? ==>
              && r == Success(if encodeBase64 then engine.base64Encode(cipher.value) else cipher.value)
              && engine.errorQueue == pending && engine.calls == done)
        && (cipher.Failed? ==>
              && r == Failure(ErrorPrefix + Oldest(pending))
              && engine.errorQueue == Popped(pending) && engine.calls == done + [ErrorString])
    {
      if Php.EmptyNullable(publicKey) {
        return Failure(PublicKeyEmpty);
      }
      var key := engine.GetPublicKey(publicKey.value);
      if key.None? {
        var errors := DrainErrors(engine);
        return Failure(ErrorPrefix + Php.Implode('\n', errors));
      }
      var result := engine.PublicEncrypt(value, key.value);
      engine.FreeKey(key.value);
      if result.None? {
        var message := engine.ErrorString();
        return Failure(ErrorPrefix + message.GetOr(""));
      }
      return Success(if encodeBase64 then engine.base64Encode(result.value) else result.value);
    }

    /** `decryptWithPublic`. */
    method DecryptWithPublic(engine: Engine, value: string, decodeBase64: bool := true)
      returns (r: Result<string, string>)
      modifies engine
      ensures Php.EmptyNullable(publicKey) ==>
        && r == Failure(PublicKeyEmpty)
        && engine.calls == old(engine.calls) && engine.errorQueue == old(engine.errorQueue)
      ensures !Php.EmptyNullable(publicKey) && engine.parsePublicKey(publicKey.value).Failed? ==>
        var pending := old(engine.errorQueue) + engine.parsePublicKey(publicKey.value).diagnostics;
        && r == Failure(ErrorPrefix + Oldest(pending))
        && engine.errorQueue == Popped(pending)
        && engine.calls == old(engine.calls) + [GetPublicKey(publicKey.value), ErrorString]
      ensures !Php.EmptyNullable(publicKey) && engine.parsePublicKey(publicKey.value).Done? ==>
        var parsed := engine.parsePublicKey(publicKey.value);
        var key := parsed.value;
        var input := Framing(engine.base64Decode, value, decodeBase64);
        var plain := engine.publicDecrypt(input, key);
        var pending := old(engine.errorQueue) + parsed.diagnostics + plain.diagnostics;
        var done := old(engine.calls) + [GetPublicKey(publicKey.value), PublicDecrypt(input, key), FreeKey(key)];
        && (plain.Done? ==>
              r == Success(plain.value) && engine.errorQueue == pending && engine.calls == done)
        && (plain.Failed? ==>
              && r == Failure(ErrorPrefix + Oldest(pending))
              && engine.errorQueue == Popped(pending) && engine.calls == done + [ErrorString])
    {
      if Php.EmptyNullable(publicKey) {
        return Failure(PublicKeyEmpty);
      }
      var input := if decodeBase64 then engine.base64Decode(value) else value;
      assert input == Framing(engine.base64Decode, value, decodeBase64);
      var key := engine.GetPublicKey(publicKey.value);
      ghost var parsed := engine.parsePublicKey(publicKey.value);
      if key.None? {
        var message := engine.ErrorString();
        return Failure(ErrorPrefix + message.GetOr(""));
      }
      ghost var queued := engine.errorQueue;
      assert queued == old(engine.errorQueue) + parsed.diagnostics && key.value == parsed.value;
      var result := engine.PublicDecrypt(input, key.value);
      ghost var plain := engine.publicDecrypt(input, key.value);
      engine.FreeKey(key.value);
      assert engine.errorQueue == queued + plain.diagnostics;
      if result.None? {
        var message := engine.ErrorString();
        return Failure(ErrorPrefix + message.GetOr(""));
      }
      return Success(result.value);
    }

    /** `decryptWithPrivate`. */
    method DecryptWithPrivate(engine: Engine, value: string, decodeBase64: bool := true)
      returns (r: Result<string, string>)
      modifies engine
      ensures Php.EmptyNullable(privateKey) ==>
        && r == Failure(PrivateKeyEmpty)
        && engine.calls == old(engine.calls) && engine.errorQueue == old(engine.errorQueue)
      ensures !Php.EmptyNullable(privateKey) && engine.parsePrivateKey(privateKey.value).Failed? ==>
        var pending := old(engine.errorQueue) + engine.parsePrivateKey(privateKey.value).diagnostics;
        && r == Failure(ErrorPrefix + Oldest(pending))
        && engine.errorQueue == Popped(pending)
        && engine.calls == old(engine.calls) + [GetPrivateKey(privateKey.value), ErrorString]
      ensures !Php.EmptyNullable(privateKey) && engine.parsePrivateKey(privateKey.value).Done? ==>
        var parsed := engine.parsePrivateKey(privateKey.value);
        var key := parsed.value;
        var input := Framing(engine.base64Decode, value, decodeBase64);
        var plain := engine.privateDecrypt(input, key);
        var pending := old(engine.errorQueue) + parsed.diagnostics + plain.diagnostics;
        var done := old(engine.calls) + [GetPrivateKey(privateKey.value), PrivateDecrypt(input, key), FreeKey(key)];
        && (plain.Done? ==>
              r == Success(plain.value) && engine.errorQueue == pending && engine.calls == done)
        && (plain.Failed? ==>
              && r == Failure(ErrorPrefix + Oldest(pending))
              && engine.errorQueue == Popped(pending) && engine.calls == done + [ErrorString])
    {
      if Php.EmptyNullable(privateKey) {
        return Failure(PrivateKeyEmpty);
      }
      var input := if decodeBase64 then engine.base64Decode(value) else value;
      assert input == Framing(engine.base64Decode, value, decodeBase64);
      var key := engine.GetPrivateKey(privateKey.value);
      ghost var parsed := engine.parsePrivateKey(privateKey.value);
      if key.None? {
        var message := engine.ErrorString();
        return Failure(ErrorPrefix + message.GetOr(""));
      }
      ghost var queued := engine.errorQueue;
      assert queued == old(engine.errorQueue) + parsed.diagnostics && key.value == parsed.value;
      var result := engine.PrivateDecrypt(input, key.value);
      ghost var plain := engine.privateDecrypt(input, key.value);
      engine.FreeKey(key.value);
      assert engine.errorQueue == queued + plain.diagnostics;
      if result.None? {
        var message := engine.ErrorString();
        return Failure(ErrorPrefix + message.GetOr(""));
      }
      return Success(result.value);
    }
  }
}
