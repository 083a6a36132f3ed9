# DRI loris extras: resolver and authorizer logic in Dafny

This project models the deterministic logic of two plugins for the loris
IIIF image server:

- **RadosS3Resolver** (`loris/rados_s3_resolver.py`) turns an identifier
  `<bucket suffix><delimiter><key>` into a time-limited signed URL for an
  object in a Rados S3 gateway bucket. The model covers the configuration
  checks and defaults of `__init__`, the format normalisation of
  `format_from_ident`, the delimiter and path-segment test of
  `is_resolvable`, and, in `_web_request_url`, the bucket and key derivation
  and the choice of the first listed object. `request_options` is modelled too.
- **DRIHttpAuthorizer** (`loris/dri_http_authorizer.py`) asks a remote
  service whether a request may see an image. The model covers
  `_validate_config`, `__init__`, `is_protected`, `get_services_info`,
  `_extract_credentials`, and `is_authorized`: the request type becomes an
  action, the probe URL is built, and the probe outcome becomes a decision.

Both objects only set fields in `__init__`, and no method changes them
afterwards. So each is a datatype, and a `New` function builds it from the
configuration. An exception raised by the constructor becomes an `Err`.
The conversions that need a loop or a local reassignment are methods:
`_web_request_url` keeps its `for key in list` loop, which returns on the
first key. `is_authorized` rebinds its local probe URL when credentials are
present.

Foreign code becomes a parameter:
- the S3 prefix listing is `list(bucketName, prefix)`;
- URL signing is `sign(bucketName, key, expiry)`;
- the HTTP HEAD request is `probe(url)`, which ends in a status code or a
  `MissingSchema` failure;
- base64 and ASCII decoding together are `decode(payload)`, where `None` is a
  payload they reject;
- `unquote` is a parameter;
- the inherited `SimpleHTTPResolver.is_resolvable` and `format_from_ident`
  are parameters;
- the web framework's parsing of the request (identifier, request type) is
  an input field of `Request`;
- the process environment's AWS keys are an `Environment` input.

The module `PyStr` models the Python 3 `str` operations that the code relies
on, with their edge cases:
- `d in s`, which is true for an empty `d`;
- `split(sep, 1)`, which splits at the first occurrence;
- `split(c)`;
- `join`;
- `lower`;
- `strip`, using the characters that `str.isspace` accepts;
- `replace`, which replaces non-overlapping occurrences from left to right.

`Wrappers` holds `Option` and `Result`.

The model follows what the code does, including where a design for fail-closed
authorization and template-based resolution would expect otherwise:
- A credential with no `:` raises an IndexError inside
  `_extract_credentials`. A payload that does not decode raises a decoding
  error, modelled as `DecodeError`. Either error propagates out of
  `is_authorized`; it does not become a deny.
  (loris/dri_http_authorizer.py:74-75)
- Only `MissingSchema` is turned into a deny. Any other failure of the HTTP
  client propagates. (loris/dri_http_authorizer.py:65-68)
- The multi-segment key check is done only by `is_resolvable`.
  `_web_request_url` lists a key containing `/` like any other.
- There is no pattern list, existence check, content cache, authorization
  cache or composite strategy in these files, so none is modelled.

Further edge cases of the code that the model keeps:
- An empty `delimiter` passes the `in` test. Python's `split` then raises a
  ValueError.
- `bucket` defaults to `None`. In that case `'.'.join` raises a TypeError
  before any listing is made.
- An empty `ident_suffix` is falsy, so nothing is appended.
- `status_code is 200` behaves as `== 200`, because CPython caches small
  integers.

## Model

| member | source | states |
|---|---|---|
| `RadosS3Resolver.New` | loris/rados_s3_resolver.py:31-57 | If `cache_root` is missing, it fails with a resolver exception of status 500 and the fixed message. Otherwise, if `extension_map` is missing, it fails with KeyError. Otherwise it succeeds, keeping both. `delimiter` defaults to `:`, `ssl_check` to true and `head_resolvable` to false. `uri_resolvable` is true. The keys fall back to the environment. |
| `RadosS3Resolver.FormatFromIdent` | loris/rados_s3_resolver.py:59-64 | Takes the inherited format and lower-cases it. A lower-cased format the extension map knows gives its mapped value. Any other comes back lower-cased and otherwise unchanged. |
| `RadosS3Resolver.FormatIgnoresCase` | loris/rados_s3_resolver.py:61-62 | Inherited formats that agree after lower-casing give the same result. A result that is not a mapped value has no capital letters. |
| `RadosS3Resolver.IsResolvable` | loris/rados_s3_resolver.py:66-78 | Works on the unquoted identifier. It raises ValueError exactly when the delimiter is empty. Without the delimiter it returns false. It returns true exactly when the delimiter occurs, the key after its first occurrence has no `/`, and the inherited test accepts the unquoted identifier. |
| `RadosS3Resolver.SegmentedKeyRefused` | loris/rados_s3_resolver.py:73-76 | A key with `/` is refused. The answer is the same whatever the inherited test says, so that test is not consulted. |
| `RadosS3Resolver.KeyName` | loris/rados_s3_resolver.py:88-89 | The key changes exactly when a non-empty `ident_suffix` is set and the key differs from the bucket suffix. It then becomes `key_<ident_suffix>`. |
| `RadosS3Resolver.BucketName` | loris/rados_s3_resolver.py:91 | The bucket name is the configured bucket, then `.`, then the bucket suffix, and nothing else. |
| `RadosS3Resolver.RequestOptions` | loris/rados_s3_resolver.py:110-112 | The request options are empty. |
| `RadosS3Resolver.WebRequestUrl` | loris/rados_s3_resolver.py:80-108 | Without the delimiter there is no result. An empty delimiter raises ValueError. A `None` bucket raises TypeError. Otherwise the bucket `<bucket>.<suffix>` is listed with the shaped key as prefix. The result is the URL of the first listed key, signed for 3600 seconds, with empty options, or nothing when the listing is empty. |
| `RadosS3Resolver.ExampleIdentifier` | loris/rados_s3_resolver.py:86-91 | `bucketA:myimage` splits into `bucketA` and `myimage`, gives bucket `<bucket>.bucketA`, and keeps key `myimage` when no suffix is set. |
| `PyStr.Find` | loris/rados_s3_resolver.py:69 | Finds an occurrence exactly when `delimiter in ident` holds, and the one it finds is the first. |
| `PyStr.FindFrom` | loris/rados_s3_resolver.py:69 | Finds the first occurrence at or after a start index, and reports none only when there is none. |
| `PyStr.SplitFirst` | loris/rados_s3_resolver.py:72 | `split(d, 1)` gives no split exactly when `d` is absent. Otherwise `suffix + d + key` is the identifier, `d` starts nowhere inside the suffix, and the suffix does not contain `d`. |
| `PyStr.SplitFirstCharacterised` | loris/rados_s3_resolver.py:86 | The split is exactly the decomposition `p + d + k` in which `d` starts nowhere inside `p`. Both directions are proved. |
| `PyStr.SplitFirstOfJoin` | loris/rados_s3_resolver.py:86 | Round trip: joining suffix, delimiter and key and then splitting gives the same parts back, provided `d` does not start inside the suffix. |
| `PyStr.SplitFirstOfJoinChar` | loris/rados_s3_resolver.py:72 | The same round trip for a one-character delimiter, whenever the suffix does not contain it. |
| `PyStr.Contains` | loris/rados_s3_resolver.py:69 | Python's `d in ident`: a delimiter longer than the identifier never occurs in it. |
| `PyStr.ContainsEmpty` | loris/rados_s3_resolver.py:69 | The empty delimiter is in every identifier. |
| `PyStr.ContainsChar` | loris/rados_s3_resolver.py:69 | For a one-character delimiter, `in` is character membership. |
| `PyStr.SplitManyIff` | loris/rados_s3_resolver.py:73-75 | `len(s.split('/')) > 1` holds exactly when `/` occurs in `s`. |
| `PyStr.Split` | loris/rados_s3_resolver.py:73 | `s.split(c)` always returns at least one part. |
| `PyStr.Join` | loris/rados_s3_resolver.py:91 | `sep.join` of no parts is empty, of one part is that part, and of two parts is the first, the separator, and the second. |
| `PyStr.SplitPartsFree` | loris/dri_http_authorizer.py:74 | No part that `split(c)` returns contains `c`. |
| `PyStr.JoinSplit` | loris/dri_http_authorizer.py:74 | Joining the parts of `split(c)` with `c` restores the string. |
| `PyStr.SplitJoin` | loris/dri_http_authorizer.py:74 | Splitting a join of parts free of `c` restores the parts. |
| `PyStr.SplitOfFree` | loris/dri_http_authorizer.py:74 | A string without `c` splits into itself alone. |
| `PyStr.SplitPrefix` | loris/dri_http_authorizer.py:74 | A head free of `c`, followed by `c`, becomes the first part. |
| `PyStr.SplitTwo` | loris/dri_http_authorizer.py:74 | `e:t` with no `:` in either part splits into exactly `[e, t]`. |
| `PyStr.Lower` | loris/rados_s3_resolver.py:61 | Keeps the length and lower-cases character by character (ASCII letters only). |
| `PyStr.LowerChar` | loris/rados_s3_resolver.py:61 | Maps an ASCII capital to its small letter and leaves other characters alone. The result is never a capital. |
| `PyStr.LowerIdempotent` | loris/rados_s3_resolver.py:61 | Lower-casing twice is lower-casing once. |
| `PyStr.StripLeft` | loris/dri_http_authorizer.py:74 | The result is a suffix of the input. Everything removed is whitespace, and the result does not start with whitespace. |
| `PyStr.StripRight` | loris/dri_http_authorizer.py:74 | The result is a prefix of the input. Everything removed is whitespace, and the result does not end with whitespace. |
| `PyStr.Strip` | loris/dri_http_authorizer.py:74 | The result is the contiguous middle of the input: every character removed before it and after it is whitespace, and the result has no whitespace at either end. |
| `PyStr.StripTrimmed` | loris/dri_http_authorizer.py:74 | A string with no whitespace at either end is left unchanged. |
| `PyStr.StripLeadingSpace` | loris/dri_http_authorizer.py:74 | Whitespace in front of a trimmed string is all that is removed. |
| `PyStr.Replace` | loris/dri_http_authorizer.py:74 | `replace(pat, "")` never lengthens the string, and a string shorter than the pattern is returned unchanged. |
| `PyStr.ReplaceAbsent` | loris/dri_http_authorizer.py:74 | A string without the pattern is left unchanged. |
| `DriHttpAuthorizer.MissingKeys` | loris/dri_http_authorizer.py:25-26 | A key is listed exactly when it is mandatory and absent from the configuration. |
| `DriHttpAuthorizer.ValidateConfig` | loris/dri_http_authorizer.py:24-32 | Raises ConfigError exactly when `authorized_url` is absent, with the message naming the class and that key. Otherwise the configuration is accepted. |
| `DriHttpAuthorizer.New` | loris/dri_http_authorizer.py:19-22 | Succeeds exactly when `authorized_url` is present, and then keeps its value. Otherwise it fails with that ConfigError. |
| `DriHttpAuthorizer.IsProtected` | loris/dri_http_authorizer.py:34-35 | Every input is protected. |
| `DriHttpAuthorizer.Action` | loris/dri_http_authorizer.py:47-52 | The action is `show` exactly when the request type is `image`. Every other request type, known or not, gives `info`. |
| `DriHttpAuthorizer.CredentialPayload` | loris/dri_http_authorizer.py:74 | The payload removes every `Basic` from the header and then strips it. It is never longer than the header and has no whitespace at either end. |
| `DriHttpAuthorizer.BasicPayload` | loris/dri_http_authorizer.py:74 | For the header `Basic <token>`, where `<token>` has no `Basic` and no whitespace at either end, the payload to decode is exactly `<token>`. |
| `DriHttpAuthorizer.CredentialParams` | loris/dri_http_authorizer.py:74-76 | Fails with IndexError exactly when the decoded text has no `:`. Otherwise it builds the parameters. |
| `DriHttpAuthorizer.CredentialParamsOfPair` | loris/dri_http_authorizer.py:73-76 | For `e:t` with no `:` in either part, the parameters are exactly `&user_email=e&user_token=t`. |
| `DriHttpAuthorizer.CredentialParamsDropsRest` | loris/dri_http_authorizer.py:74-75 | Anything after a second `:` is dropped from the parameters. |
| `DriHttpAuthorizer.ExtractCredentials` | loris/dri_http_authorizer.py:73-76 | Succeeds exactly when the payload decodes to text containing `:`. A payload that does not decode is a DecodeError. Decoded text without `:` is an IndexError. Otherwise the result is the parameters built from the decoded text. |
| `DriHttpAuthorizer.Decide` | loris/dri_http_authorizer.py:59-68 | The decision is `{"status": "ok"}` exactly when the probe status is 200. Otherwise, including a `MissingSchema` failure, it is `{"status": "deny"}`. |
| `DriHttpAuthorizer.IsAuthorized` | loris/dri_http_authorizer.py:37-68 | Probes exactly `<authorized_url>/<ident>?method=<action>`. The credential parameters are appended exactly when an Authorization header is present. A credential error propagates. Otherwise the result is the decision for that probe's outcome, and it is only ever ok or deny. |
| `DriHttpAuthorizer.ExampleProbe` | loris/dri_http_authorizer.py:47-63 | An info request for `img1` against `https://auth.example` probes `https://auth.example/img1?method=info`. A 200 reply allows it, and a 403 reply denies it. |
| `DriHttpAuthorizer.GetServicesInfo` | loris/dri_http_authorizer.py:70-71 | The result is `{"service": {}}` for every input. |

## Left out

- The S3 SDK (loris/rados_s3_resolver.py:93-101) is not modelled. This covers the connection, `get_bucket`, the listing and presigned URLs. Listing and signing are parameters. The keys, endpoint and `ssl_check` are stored but not passed anywhere. A missing bucket (an SDK error) is not modelled.
- Superclass behaviour is not modelled. This covers `SimpleHTTPResolver.__init__`, `is_resolvable` and `format_from_ident`, plus `_AbstractAuthorizer.__init__` and the request parsing that `LorisRequest` does; that code is not part of this model. Where the code calls it, its answer is an input, and any exception it raises is left out.
- The HTTP HEAD request, TLS with `verify=False`, and every client exception other than `MissingSchema` are not modelled. Those other exceptions propagate in the code; the model claims nothing about them.
- `base64` is not imported in loris/dri_http_authorizer.py, so a request with an Authorization header would raise NameError. The model instead assumes decoding is available, as the `decode` parameter.
- `unquote` is not imported in loris/rados_s3_resolver.py:67. The model treats it as the `unquote` parameter instead of raising NameError.
- How the web framework looks headers up (case-insensitively) is not modelled. `Request.headers` is keyed by canonical header names.
- The `info` argument of `is_authorized` is never used there, so the model omits it.
- Logging is left out.
- Configuration values of a type other than the one the code uses are left out, such as a non-string `delimiter` or a `None` value given explicitly for a key.
- PyStr.Lower: only ASCII letters are lower-cased. The full Unicode case mapping of Python's `str.lower` is not modelled.
