/**
 * What the two webhook handlers exchange with the outside world: the request they
 * read, the decoded push event, and the reply they produce together with the
 * background deployments they queue.
 */
module Webhook {
  import opened Wrappers
  import opened Digest

  /** A POST to /webhook: the raw body and the X-Hub-Signature-256 header, if sent. */
  datatype Request = Request(body: Bytes, signatureHeader: Option<string>) {
    /** `request.headers.get("X-Hub-Signature-256", "")`. */
    function Signature(): string {
      signatureHeader.GetOr("")
    }
  }

  /**
   * The decoded push event. `ref` is the top-level "ref" member, if present;
   * `repositoryName` is `payload["repository"]["name"]` when both lookups succeed.
   */
  datatype Payload =
    | Object(ref: Option<string>, repositoryName: Option<string>)
    | NotAnObject  // a JSON array, string, number, true, false or null

  /** What `json.loads(body)` does with the raw body. */
  datatype Decoded =
    | Parsed(payload: Payload)
    | SyntaxError  // json.JSONDecodeError
    | NotText      // UnicodeDecodeError: the body is not UTF-8, UTF-16 or UTF-32 text

  /** The body decoded to an object whose "ref" member is `ref`. */
  predicate PushesTo(d: Decoded, ref: string) {
    d.Parsed? && d.payload.Object? && d.payload.ref == Some(ref)
  }

  /** An exception that escapes the handler; the server answers it with HTTP 500. */
  datatype Fault =
    | SecretUnset         // AttributeError: None.encode()
    | NonAsciiSignature   // TypeError from hmac.compare_digest
    | BodyNotText         // UnicodeDecodeError, which `except json.JSONDecodeError` does not catch
    | PayloadNotObject    // AttributeError: payload.get on a non-dict
    | RepositoryNameMissing  // KeyError or TypeError at payload["repository"]["name"]

  datatype Response =
    | Forbidden                                   // HTTPException(403, "Assinatura inv\U{e1}lida")
    | BadPayload                                  // HTTPException(400, "Payload inv\U{e1}lido")
    | Ignored(status: string)                     // 200 {"status": ...}
    | Started(status: string, repositorio: string)  // 200 {"status": ..., "repositorio": ...}
    | Crashed(fault: Fault)                       // 500, unhandled exception

  /** The response and the repository names handed to `run_deployment_script`, in order. */
  datatype Reply = Reply(response: Response, queued: seq<string>)

  function StatusCode(r: Response): nat {
    match r
    case Forbidden => 403
    case BadPayload => 400
    case Ignored(_) => 200
    case Started(_, _) => 200
    case Crashed(_) => 500
  }

  const StartedStatus: string := "deployment iniciado"

  /** The reply for an accepted push: one deployment queued for `name`, echoed back. */
  function Dispatch(name: string): Reply {
    Reply(Started(StartedStatus, name), [name])
  }
}
