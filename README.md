# fastapi-deployment webhook receiver, modelled in Dafny

The repository is a small push-webhook receiver. A source-control host POSTs a push
event to `/webhook`. The receiver checks the `X-Hub-Signature-256` header against an
HMAC-SHA256 of the raw body, decodes the JSON body and looks at its `ref`. For an
accepted branch it queues one background run of the repository's `deployment.sh`
and answers `{"status": "deployment iniciado", "repositorio": <name>}`. In `main.py`
the deployment's environment is the inherited process environment, overlaid with the
KEY=VALUE lines of a configuration file, overlaid with `REPO_NAME`.

Two variants of the receiver exist. They are modelled side by side:

- `main.py` (module `RootApp`, with `EnvConfig`) fails closed when the secret is
  unset or empty, and deploys pushes to `refs/heads/main` and `refs/heads/master`.
- `src/main.py` (module `SrcApp`) uses the secret unchecked, and deploys only
  `refs/heads/master`. Its deployments run with the inherited environment unchanged:
  it reads no configuration file and sets no `REPO_NAME`.

Modules:

- `Wrappers`: `Option` and `Result`.
- `Text`: Python's `str.isspace`, `str.strip()`, the first-occurrence cut that
  `str.split(sep, 1)` makes, and the ASCII test of `hmac.compare_digest`.
- `Digest`: `hexdigest()` over an abstract MAC, the expected `sha256=` header
  value, and `hmac.compare_digest` on two strings.
- `Webhook`: the request, the decoded payload, the response, and the deployments
  a reply queues.
- `EnvConfig`: `load_env_config` as a loop over the file's lines, proved against
  the fold `ParseLines`. Also the two environment overlays.
- `RootApp` and `SrcApp`: `verify_signature` and the decision procedure of
  `handle_webhook`, as pure functions returning a `Reply`.

Failure behaviour the code has, and the model keeps:

- A signed push to an accepted branch without `repository.name` raises (HTTP 500).
  It is not answered with 400.
- `src/main.py` has no fail-closed check. An unset secret raises (HTTP 500) on every
  request. An empty secret is used as an ordinary HMAC key.
- `json.loads` on a body that is not UTF-8/16/32 text raises `UnicodeDecodeError`.
  The handlers catch only `JSONDecodeError`, so this is HTTP 500, not 400.
- `hmac.compare_digest` raises `TypeError` for a `str` holding non-ASCII characters.
  A header with such a character therefore gives HTTP 500, not 403.
- A payload that is valid JSON but not an object makes `payload.get` raise (HTTP 500).

## Model

| member | source | states |
|---|---|---|
| `Text.TrimLeftKeepsSuffix` | main.py:30 | the left half of `strip()` keeps a suffix of the line, drops only white space, and stops at a non-space character |
| `Text.TrimRightKeepsPrefix` | main.py:30 | the right half of `strip()` keeps a prefix, drops only white space, and stops at a non-space character |
| `Text.Strip` | main.py:30 | the stripped line is no longer than the line, and neither of its ends is white space |
| `Text.StripCutsOnlySpace` | main.py:30 | the line is white space, then the stripped line, then white space |
| `Text.StripRecoversCore` | main.py:33 | a trimmed text padded with white space strips back to exactly that text (with the previous row, `strip()` is fully characterised) |
| `Text.StripIdempotent` | main.py:30-33 | stripping an already stripped key, value or line changes nothing |
| `Text.FirstIndexOf` | main.py:32 | the cut of `split("=", 1)` is at an '=' with no '=' before it |
| `Digest.Hex` | main.py:48 | `hexdigest()` has two characters per tag byte, all lowercase hexadecimal digits |
| `Digest.UnHexHex` | main.py:48 | reading the hex digest back yields the tag: hex rendering loses nothing |
| `Digest.HexInjective` | main.py:48 | distinct tags give distinct hex digests |
| `Digest.ExpectedSignature` | main.py:48-49 | the accepted header value starts with "sha256=", has 7 + 2 × tag-length characters, and is pure ASCII |
| `EnvConfig.ParseLine` | main.py:30-33 | a line is skipped exactly when, stripped, it is empty, starts with '#' or holds no '='; a kept key and value are trimmed and the key has no '=' |
| `EnvConfig.ParseLineSplitsAtFirstEquals` | main.py:32-33 | a stripped line `k + "=" + v` with no '=' in `k` gives key `strip(k)` and value `strip(v)`, whatever '=' `v` contains |
| `EnvConfig.ParseFormatLine` | main.py:30-33 | every key and value the parser can produce, the empty key included, is read back from its `KEY=VALUE` line |
| `EnvConfig.PaddedLine` | main.py:30-33 | the line " B = 2=3 " gives key "B" and value "2=3" |
| `EnvConfig.ParseLinesKeysDefined` | main.py:29-33 | every key of the loaded map is the key of some kept line |
| `EnvConfig.ParseLinesLastWins` | main.py:33 | a key's value is the value on the last kept line with that key |
| `EnvConfig.SkippedLineChangesNothing` | main.py:31 | blank lines, comments and lines without '=' leave the map unchanged |
| `EnvConfig.LoadEnvConfig` | main.py:25-38 | the loop's dictionary is the fold of the lines read; a file that cannot be opened or read gives {} |
| `EnvConfig.SampleFile` | main.py:25-35 | the lines `A=1`, `# comment`, ` `, `B=2=3` load as {A: 1, B: 2=3} |
| `EnvConfig.GlobalEnv` | main.py:41 | the global environment has the keys of both layers; file entries override inherited ones, and other inherited entries are kept |
| `EnvConfig.ProcessEnv` | main.py:62 | a deployment's environment adds REPO_NAME bound to the repository and keeps every other entry |
| `EnvConfig.DeploymentEnvLayers` | main.py:41-62 | a deployment's environment is REPO_NAME over the file's entries over the inherited ones, with no other key |
| `EnvConfig.UnreadableFileDegrades` | main.py:36-41 | with an unreadable file, a deployment sees the inherited environment plus REPO_NAME |
| `RootApp.VerifySignature` | main.py:44-49 | accepts exactly a header equal to "sha256=" + hex digest under a configured non-empty secret; an unset or empty secret gives false for every header; raises exactly on a non-ASCII header when a secret is set |
| `RootApp.HandleWebhook` | main.py:78-103 | at most one deployment is queued, and one is queued exactly when the response is "deployment iniciado" naming the payload's repository; 400 exactly for an authentic body that is not JSON; "ignored" exactly for an authentic object whose ref (default "") is neither main nor master; deployment exactly for an authentic object with ref main or master and a repository name; an inauthentic request gets 403 and queues nothing, except that a non-ASCII header under a set secret raises; 403 only for an inauthentic request; an authentic body that is not text, a non-object payload, and a push to main or master without a repository name each raise their own exception |
| `RootApp.NoSecretRefusesAll` | main.py:44-84 | with no secret or an empty one, every request gets 403 and queues nothing |
| `RootApp.SignatureCheckedFirst` | main.py:83-90 | when the signature does not check out, the reply does not depend on what the body decodes to, and nothing is queued |
| `RootApp.MissingHeaderForbidden` | main.py:81-84 | a request without the signature header gets 403 |
| `RootApp.SignedPushDeploys` | main.py:93-103 | a correctly signed push to main or master naming repository r queues exactly r and answers with r |
| `RootApp.OtherBranchIgnored` | main.py:93-95 | a correctly signed push with no ref, or a ref other than main or master, is ignored and queues nothing |
| `RootApp.NonAsciiHeaderRaises` | main.py:49 | with a secret set, a header with a non-ASCII character raises rather than giving 403 |
| `RootApp.NamelessPushRaises` | main.py:98 | a signed push to main or master without repository.name raises and queues nothing |
| `SrcApp.VerifySignature` | src/main.py:18-20 | accepts exactly a header equal to "sha256=" + hex digest under the configured secret, even an empty one; raises when the secret is unset; raises on a non-ASCII header otherwise |
| `SrcApp.HandleWebhook` | src/main.py:43-67 | at most one deployment, queued exactly when the response names it; 400 exactly for an authentic non-JSON body; "ignored" exactly for an authentic object whose ref is not exactly refs/heads/master (a missing ref included); deployment exactly for an authentic push to master with a repository name; an inauthentic request gets 403 and queues nothing, except that an unset secret raises and a non-ASCII header raises; 403 only for an inauthentic request; an authentic non-text body, a non-object payload, and a push to master without a repository name each raise their own exception |
| `SrcApp.NamelessPushRaises` | src/main.py:62 | a signed push to master without repository.name raises and queues nothing |
| `SrcApp.UnsetSecretRaises` | src/main.py:15-20 | with the secret unset, every request raises before decoding, and nothing is queued |
| `SrcApp.EmptySecretAccepted` | src/main.py:18-20 | with an empty secret, a body signed under the empty key is deployed |
| `SrcApp.MainBranchIgnored` | src/main.py:58-59 | a signed push to main, or one without a ref, is ignored |
| `SrcApp.SameAsRootExceptMain` | src/main.py:43-67 | with a non-empty secret, except for pushes to main, both receivers queue the same deployments and answer alike, up to the wording of "ignored" |

## Left out

- HMAC-SHA256 and the UTF-8 encoding of the secret: the MAC is a parameter `mac`. The constant-time behaviour of `hmac.compare_digest` cannot be stated and is not modelled.
- `json.loads` and the JSON value model: decoding is a parameter `decode` giving a parsed payload, a syntax error or a text-encoding error. `json.loads` can also raise `RecursionError` on deeply nested input; the handlers do not catch it, so the server answers 500. The model has no outcome for it. A payload records only whether `ref` is present and whether `payload["repository"]["name"]` succeeds.
- Non-string JSON values for `ref` or `repository.name` are not modelled. A `repository` that is present but not an object is folded into "name missing", because both raise.
- `run_deployment_script` is modelled only through the `REPO_NAME` overlay. Not modelled: the path join and existence check of `deployment.sh`, running it with bash and a working directory, and logging its output and exit status.
- `BackgroundTasks.add_task` and asynchronous execution: a reply lists the repository names it would queue.
- File opening, newline handling and `load_dotenv`. The configuration file is given as its lines, or as unreadable (this includes an unset `ENV_DIR` and a read error part-way through). `os.environ` is a map parameter.
- The module-level settings `SECRET_KEY`, `APPS_DIR` and `ENV_DIR` are parameters read once. `APPS_DIR` is not used by the modelled code.
- FastAPI routing, the detail texts of `HTTPException`, logging, and the `/health` endpoint.
- How the server turns header bytes into a string, and repeated headers. The handler receives the first `X-Hub-Signature-256` value as a string, or nothing.
