/**
 * The earlier webhook receiver (src/main.py). Same gate, decoding and dispatch as
 * the root one, but the secret is used without a check, so an unset secret raises
 * and an empty one is an ordinary HMAC key, and only pushes to master deploy.
 */
module SrcApp {
  import opened Wrappers
  import opened Text
  import opened Digest
  import opened Webhook
  import RootApp

  const MasterRef: string := "refs/heads/master"
  const IgnoredStatus: string := "ignorado - n\U{e3}o \U{e9} master"

  /** A configured secret (possibly empty) under which `signature` is the body's signature. */
  predicate Authentic(mac: Mac, secret: Option<string>, body: Bytes, signature: string) {
    secret.Some? && signature == ExpectedSignature(mac, secret.value, body)
  }

  /**
   * `verify_signature(body, signature)`: `compare_digest` of the expected signature
   * with the header; `SECRET.encode()` raises when the secret is unset.
   */
  function VerifySignature(mac: Mac, secret: Option<string>, body: Bytes, signature: string)
    : (r: Result<bool, Fault>)
    ensures r == Success(true) <==> Authentic(mac, secret, body, signature)
    ensures secret.None? ==> r == Failure(SecretUnset)
    ensures secret.Some? ==> (r.Failure? <==> !IsAscii(signature))
    ensures secret.Some? && r.Failure? ==> r.error == NonAsciiSignature
  {
    match secret
    case None => Failure(SecretUnset)
    case Some(key) =>
      match CompareDigest(ExpectedSignature(mac, key, body), signature)
      case None => Failure(NonAsciiSignature)
      case Some(equal) => Success(equal)
  }

  /** `handle_webhook` of src/main.py: the reply to one request and the deployments it queues. */
  function HandleWebhook(mac: Mac, secret: Option<string>, decode: Bytes -> Decoded, req: Request)
    : (reply: Reply)
    ensures |reply.queued| <= 1
    ensures reply.queued != [] <==> reply.response.Started?
    ensures StatusCode(reply.response) != 200 ==> reply.queued == []
    ensures reply.response.Started? ==> reply == Dispatch(reply.response.repositorio)
    ensures !Authentic(mac, secret, req.body, req.Signature()) ==>
      reply == Reply(if secret.None? then Crashed(SecretUnset)
                     else if !IsAscii(req.Signature()) then Crashed(NonAsciiSignature)
                     else Forbidden, [])
    ensures reply.response == Forbidden ==> !Authentic(mac, secret, req.body, req.Signature())
    ensures Authentic(mac, secret, req.body, req.Signature()) && decode(req.body) == NotText ==>
      reply == Reply(Crashed(BodyNotText), [])
    ensures Authentic(mac, secret, req.body, req.Signature()) && decode(req.body) == Parsed(NotAnObject) ==>
      reply == Reply(Crashed(PayloadNotObject), [])
    ensures && Authentic(mac, secret, req.body, req.Signature())
            && PushesTo(decode(req.body), MasterRef)
            && decode(req.body).payload.repositoryName.None? ==>
      reply == Reply(Crashed(RepositoryNameMissing), [])
    ensures reply.response == BadPayload <==>
      Authentic(mac, secret, req.body, req.Signature()) && decode(req.body) == SyntaxError
    ensures reply.response.Ignored? <==>
      && Authentic(mac, secret, req.body, req.Signature())
      && decode(req.body).Parsed? && decode(req.body).payload.Object?
      && decode(req.body).payload.ref != Some(MasterRef)
    ensures reply.response.Ignored? ==> reply.response.status == IgnoredStatus
    ensures reply.response.Started? <==>
      && Authentic(mac, secret, req.body, req.Signature())
      && PushesTo(decode(req.body), MasterRef) && decode(req.body).payload.repositoryName.Some?
    ensures reply.response.Started? ==> reply.response.repositorio == decode(req.body).payload.repositoryName.value
  {
    match VerifySignature(mac, secret, req.body, req.Signature())
    case Failure(fault) => Reply(Crashed(fault), [])
    case Success(false) => Reply(Forbidden, [])
    case Success(true) =>
      match decode(req.body)
      case SyntaxError => Reply(BadPayload, [])
      case NotText => Reply(Crashed(BodyNotText), [])
      case Parsed(NotAnObject) => Reply(Crashed(PayloadNotObject), [])
      case Parsed(Object(ref, name)) =>
        if ref != Some(MasterRef) then Reply(Ignored(IgnoredStatus), [])
        else
          match name
          case None => Reply(Crashed(RepositoryNameMissing), [])
          case Some(n) => Dispatch(n)
  }

  /** No fail-closed check: with the secret unset every request ends in an exception, before decoding. */
  lemma UnsetSecretRaises(mac: Mac, decode: Bytes -> Decoded, req: Request)
    ensures HandleWebhook(mac, None, decode, req) == Reply(Crashed(SecretUnset), [])
  {
  }

  /** An empty secret is used as an HMAC key: a body signed with it is deployed. */
  lemma EmptySecretAccepted(mac: Mac, decode: Bytes -> Decoded, body: Bytes, name: string)
    requires decode(body) == Parsed(Object(Some(MasterRef), Some(name)))
    ensures HandleWebhook(mac, Some(""), decode, Request(body, Some(ExpectedSignature(mac, "", body))))
         == Dispatch(name)
  {
  }

  /** Only master deploys: a signed push to main, or one without "ref", is ignored. */
  lemma MainBranchIgnored(mac: Mac, secret: string, decode: Bytes -> Decoded, body: Bytes,
                          ref: Option<string>, name: Option<string>)
    requires ref == Some(RootApp.MainRef) || ref == None
    requires decode(body) == Parsed(Object(ref, name))
    ensures HandleWebhook(mac, Some(secret), decode,
                          Request(body, Some(ExpectedSignature(mac, secret, body))))
         == Reply(Ignored(IgnoredStatus), [])
  {
  }

  /**
   * With a non-empty secret the two receivers differ only in the accepted refs: for
   * any request whose body is not a push to main, they queue the same deployments
   * and give the same response up to the wording of the "ignored" status.
   */
  lemma SameAsRootExceptMain(mac: Mac, secret: string, decode: Bytes -> Decoded, req: Request)
    requires secret != ""
    requires !PushesTo(decode(req.body), RootApp.MainRef)
    ensures var src := HandleWebhook(mac, Some(secret), decode, req);
            var root := RootApp.HandleWebhook(mac, Some(secret), decode, req);
      && src.queued == root.queued
      && (src.response == root.response || (src.response.Ignored? && root.response.Ignored?))
  {
  }

  /** A signed push to master whose payload lacks repository.name raises; nothing is queued. */
  lemma NamelessPushRaises(mac: Mac, secret: string, decode: Bytes -> Decoded, body: Bytes)
    requires decode(body) == Parsed(Object(Some(MasterRef), None))
    ensures HandleWebhook(mac, Some(secret), decode,
                          Request(body, Some(ExpectedSignature(mac, secret, body))))
         == Reply(Crashed(RepositoryNameMissing), [])
  {
  }
}
