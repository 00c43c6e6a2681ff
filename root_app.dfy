/**
 * The webhook receiver at the repository root (main.py): a fail-closed signature
 * check, then JSON decoding, then a filter admitting pushes to main or master, then
 * one background deployment of the pushed repository.
 */
module RootApp {
  import opened Wrappers
  import opened Text
  import opened Digest
  import opened Webhook

  const MainRef: string := "refs/heads/main"
  const MasterRef: string := "refs/heads/master"
  const IgnoredStatus: string := "ignorado - n\U{e3}o \U{e9} main/master"

  predicate IsDeployRef(ref: string) {
    ref == MainRef || ref == MasterRef
  }

  /** A configured, non-empty secret under which `signature` is the body's signature. */
  predicate Authentic(mac: Mac, secret: Option<string>, body: Bytes, signature: string) {
    secret.Some? && secret.value != "" && signature == ExpectedSignature(mac, secret.value, body)
  }

  /**
   * `verify_signature(body, signature)`: false without a secret (None or ""),
   * otherwise `compare_digest` of the expected signature with the header.
   */
  function VerifySignature(mac: Mac, secret: Option<string>, body: Bytes, signature: string)
    : (r: Result<bool, Fault>)
    ensures r == Success(true) <==> Authentic(mac, secret, body, signature)
    ensures (secret.None? || secret == Some("")) ==> r == Success(false)
    ensures r.Failure? <==> secret.Some? && secret.value != "" && !IsAscii(signature)
    ensures r.Failure? ==> r.error == NonAsciiSignature
  {
    if secret.None? || secret.value == "" then Success(false)
    else
      match CompareDigest(ExpectedSignature(mac, secret.value, body), signature)
      case None => Failure(NonAsciiSignature)
      case Some(equal) => Success(equal)
  }

  /**
   * `handle_webhook`: the reply to one request and the deployments it queues.
   * `decode` stands for `json.loads` on the raw body.
   */
  function HandleWebhook(mac: Mac, secret: Option<string>, decode: Bytes -> Decoded, req: Request)
    : (reply: Reply)
    ensures |reply.queued| <= 1
    ensures reply.queued != [] <==> reply.response.Started?
    ensures StatusCode(reply.response) != 200 ==> reply.queued == []
    ensures reply.response.Started? ==> reply == Dispatch(reply.response.repositorio)
    ensures !Authentic(mac, secret, req.body, req.Signature()) ==>
      reply == Reply(if secret.Some? && secret.value != "" && !IsAscii(req.Signature())
                     then Crashed(NonAsciiSignature) else Forbidden, [])
    ensures reply.response == Forbidden ==> !Authentic(mac, secret, req.body, req.Signature())
    ensures Authentic(mac, secret, req.body, req.Signature()) && decode(req.body) == NotText ==>
      reply == Reply(Crashed(BodyNotText), [])
    ensures Authentic(mac, secret, req.body, req.Signature()) && decode(req.body) == Parsed(NotAnObject) ==>
      reply == Reply(Crashed(PayloadNotObject), [])
    ensures && Authentic(mac, secret, req.body, req.Signature())
            && decode(req.body).Parsed? && decode(req.body).payload.Object?
            && IsDeployRef(decode(req.body).payload.ref.GetOr(""))
            && decode(req.body).payload.repositoryName.None? ==>
      reply == Reply(Crashed(RepositoryNameMissing), [])
    ensures reply.response == BadPayload <==>
      Authentic(mac, secret, req.body, req.Signature()) && decode(req.body) == SyntaxError
    ensures reply.response.Ignored? <==>
      && Authentic(mac, secret, req.body, req.Signature())
      && decode(req.body).Parsed? && decode(req.body).payload.Object?
      && !IsDeployRef(decode(req.body).payload.ref.GetOr(""))
    ensures reply.response.Ignored? ==> reply.response.status == IgnoredStatus
    ensures reply.response.Started? <==>
      && Authentic(mac, secret, req.body, req.Signature())
      && decode(req.body).Parsed? && decode(req.body).payload.Object?
      && decode(req.body).payload.ref.Some? && IsDeployRef(decode(req.body).payload.ref.value)
      && decode(req.body).payload.repositoryName.Some?
    ensures reply.response.Started? ==> reply.response.repositorio == decode(req.body).payload.repositoryName.value
  {
    match VerifySignature(mac, secret, req.body, req.Signature())
    case Failure(fault) => Reply(Crashed(fault), [])
    case Success(false) => Reply(Forbidden, [])
    case Success(true) =>
      match decode(req.body)
      case SyntaxError => Reply(BadPayload, [])
      case NotText => Reply(Crashed(BodyNotText), [])
      case Parsed(NotAnObject) => Reply(Crashed(PayloadNotObject), [])
      case Parsed(Object(ref, name)) =>
        if !IsDeployRef(ref.GetOr("")) then Reply(Ignored(IgnoredStatus), [])
        else
          match name
          case None => Reply(Crashed(RepositoryNameMissing), [])
          case Some(n) => Dispatch(n)
  }

  /**
   * Fail closed: with no secret, or an empty one, every request is refused with 403
   * and nothing is deployed, whatever its header and body.
   */
  lemma NoSecretRefusesAll(mac: Mac, secret: Option<string>, decode: Bytes -> Decoded, req: Request)
    requires secret.None? || secret == Some("")
    ensures HandleWebhook(mac, secret, decode, req) == Reply(Forbidden, [])
  {
  }

  /**
   * The signature is checked before the body is decoded: when it does not check
   * out, what the body decodes to makes no difference and nothing is deployed.
   */
  lemma SignatureCheckedFirst(mac: Mac, secret: Option<string>, decode1: Bytes -> Decoded,
                              decode2: Bytes -> Decoded, req: Request)
    requires !Authentic(mac, secret, req.body, req.Signature())
    ensures HandleWebhook(mac, secret, decode1, req) == HandleWebhook(mac, secret, decode2, req)
    ensures HandleWebhook(mac, secret, decode1, req).queued == []
  {
  }

  /** A request without the signature header is refused with 403. */
  lemma MissingHeaderForbidden(mac: Mac, secret: Option<string>, decode: Bytes -> Decoded, body: Bytes)
    ensures HandleWebhook(mac, secret, decode, Request(body, None)).response == Forbidden
  {
    assert |ExpectedSignature(mac, secret.GetOr(""), body)| > 0;
  }

  /** A signed push to main or master naming its repository queues exactly that repository. */
  lemma SignedPushDeploys(mac: Mac, secret: string, decode: Bytes -> Decoded, body: Bytes,
                          ref: string, name: string)
    requires secret != "" && IsDeployRef(ref)
    requires decode(body) == Parsed(Object(Some(ref), Some(name)))
    ensures var reply := HandleWebhook(mac, Some(secret), decode,
                                       Request(body, Some(ExpectedSignature(mac, secret, body))));
      reply == Reply(Started("deployment iniciado", name), [name])
  {
  }

  /** A signed push without a "ref" member, or to any other branch, is ignored. */
  lemma OtherBranchIgnored(mac: Mac, secret: string, decode: Bytes -> Decoded, body: Bytes,
                           ref: Option<string>, name: Option<string>)
    requires secret != "" && !IsDeployRef(ref.GetOr(""))
    requires decode(body) == Parsed(Object(ref, name))
    ensures HandleWebhook(mac, Some(secret), decode,
                          Request(body, Some(ExpectedSignature(mac, secret, body))))
         == Reply(Ignored(IgnoredStatus), [])
  {
  }

  /**
   * `compare_digest` refuses a header holding a non-ASCII character, so such a
   * request ends in an exception (HTTP 500) rather than a 403.
   */
  lemma NonAsciiHeaderRaises(mac: Mac, secret: string, decode: Bytes -> Decoded, req: Request)
    requires secret != "" && !IsAscii(req.Signature())
    ensures HandleWebhook(mac, Some(secret), decode, req) == Reply(Crashed(NonAsciiSignature), [])
  {
  }

  /** A signed push to main or master whose payload lacks repository.name raises; nothing is queued. */
  lemma NamelessPushRaises(mac: Mac, secret: string, decode: Bytes -> Decoded, body: Bytes, ref: string)
    requires secret != "" && IsDeployRef(ref)
    requires decode(body) == Parsed(Object(Some(ref), None))
    ensures HandleWebhook(mac, Some(secret), decode,
                          Request(body, Some(ExpectedSignature(mac, secret, body))))
         == Reply(Crashed(RepositoryNameMissing), [])
  {
  }
}
