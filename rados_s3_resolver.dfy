/** The identifier shaping of the Rados S3 gateway resolver: configuration
    checks and defaults, format normalisation, the resolvability test, and
    the derivation of bucket and key from which a signed URL of the first
    matching object is produced. The storage SDK (connection, bucket lookup,
    prefix listing, URL signing), `unquote`, and the inherited
    SimpleHTTPResolver behaviour are parameters. */
module RadosS3Resolver {
  import opened Wrappers
  import opened PyStr

  /** The exceptions the resolver's own code raises. */
  datatype Error =
    | ResolverException(httpStatus: int, message: string)
    | KeyError(key: string)
    | ValueError(message: string)
    | TypeError(message: string)

  /** The resolver's configuration section; `None` is an absent key. */
  datatype Config = Config(
    headResolvable: Option<bool>,
    defaultFormat: Option<string>,
    identRegex: Option<string>,
    cacheRoot: Option<string>,
    bucket: Option<string>,
    accessKey: Option<string>,
    secretKey: Option<string>,
    endpoint: Option<string>,
    identSuffix: Option<string>,
    delimiter: Option<string>,
    extensionMap: Option<map<string, string>>,
    sslCheck: Option<bool>)

  /** The process environment's AWS credentials, the fallback for the keys. */
  datatype Environment = Environment(awsAccessKeyId: Option<string>, awsSecretAccessKey: Option<string>)

  /** The fields `__init__` sets; none of them changes afterwards. An
      `ident_regex` of `False` is `None` here. */
  datatype Resolver = Resolver(
    headResolvable: bool,
    defaultFormat: Option<string>,
    identRegex: Option<string>,
    cacheRoot: string,
    bucket: Option<string>,
    accessKey: Option<string>,
    secretKey: Option<string>,
    endpoint: Option<string>,
    identSuffix: Option<string>,
    delimiter: string,
    extensionMap: map<string, string>,
    uriResolvable: bool,
    sslCheck: bool)

  const MissingCacheRootMessage: string :=
    "Server Side Error: Configuration incomplete and cannot resolve. Missing setting for cache_root."
  const DefaultDelimiter: string := ":"
  /** Lifetime in seconds of the signed URLs handed out. */
  const UrlExpiry: nat := 3600
  const EmptySeparatorMessage: string := "empty separator"
  const NoneBucketMessage: string := "sequence item 0: expected str instance, NoneType found"

  /** `RadosS3Resolver.__init__`: `cache_root` is checked first (a resolver
      exception with status 500), then `extension_map` is looked up by
      index (a KeyError); every other setting has a default. */
  function New(config: Config, env: Environment): (r: Result<Resolver, Error>)
    ensures config.cacheRoot.None? <==> r == Err(ResolverException(500, MissingCacheRootMessage))
    ensures config.cacheRoot.Some? && config.extensionMap.None? <==> r == Err(KeyError("extension_map"))
    ensures r.Ok? <==> config.cacheRoot.Some? && config.extensionMap.Some?
    ensures r.Ok? ==> r.value.cacheRoot == config.cacheRoot.value
    ensures r.Ok? ==> r.value.extensionMap == config.extensionMap.value
    ensures r.Ok? ==> r.value.delimiter == config.delimiter.GetOr(DefaultDelimiter)
    ensures r.Ok? ==> r.value.sslCheck == config.sslCheck.GetOr(true)
    ensures r.Ok? ==> r.value.headResolvable == config.headResolvable.GetOr(false)
    ensures r.Ok? ==> r.value.uriResolvable
    ensures r.Ok? ==> r.value.bucket == config.bucket && r.value.identSuffix == config.identSuffix
    ensures r.Ok? ==> r.value.endpoint == config.endpoint
    ensures r.Ok? ==> r.value.defaultFormat == config.defaultFormat && r.value.identRegex == config.identRegex
    ensures r.Ok? ==> r.value.accessKey == (if config.accessKey.Some? then config.accessKey else env.awsAccessKeyId)
    ensures r.Ok? ==> r.value.secretKey == (if config.secretKey.Some? then config.secretKey else env.awsSecretAccessKey)
  {
    if config.cacheRoot.None? then Err(ResolverException(500, MissingCacheRootMessage))
    else if config.extensionMap.None? then Err(KeyError("extension_map"))
    else
      Ok(Resolver(
        headResolvable := config.headResolvable.GetOr(false),
        defaultFormat := config.defaultFormat,
        identRegex := config.identRegex,
        cacheRoot := config.cacheRoot.value,
        bucket := config.bucket,
        accessKey := if config.accessKey.Some? then config.accessKey else env.awsAccessKeyId,
        secretKey := if config.secretKey.Some? then config.secretKey else env.awsSecretAccessKey,
        endpoint := config.endpoint,
        identSuffix := config.identSuffix,
        delimiter := config.delimiter.GetOr(DefaultDelimiter),
        extensionMap := config.extensionMap.value,
        uriResolvable := true,
        sslCheck := config.sslCheck.GetOr(true)))
  }

  /** `format_from_ident`: the inherited format, lower-cased, then renamed
      through the extension map; a format the map does not know is kept. */
  function FormatFromIdent(r: Resolver, ident: string, potentialFormat: string,
                           inherited: (string, string) -> string): (f: string)
    ensures Lower(inherited(ident, potentialFormat)) in r.extensionMap ==>
              f == r.extensionMap[Lower(inherited(ident, potentialFormat))]
    ensures Lower(inherited(ident, potentialFormat)) !in r.extensionMap ==>
              f == Lower(inherited(ident, potentialFormat))
  {
    var format := Lower(inherited(ident, potentialFormat));
    if format in r.extensionMap then r.extensionMap[format] else format
  }

  /** Two inherited formats that differ only in the case of ASCII letters
      give the same format, and a format left unmapped has no capitals. */
  lemma FormatIgnoresCase(r: Resolver, ident: string, a: string, b: string,
                          inherited: (string, string) -> string)
    requires Lower(inherited(ident, a)) == Lower(inherited(ident, b))
    ensures FormatFromIdent(r, ident, a, inherited) == FormatFromIdent(r, ident, b, inherited)
    ensures FormatFromIdent(r, ident, a, inherited) !in r.extensionMap.Values ==>
              forall i :: 0 <= i < |FormatFromIdent(r, ident, a, inherited)| ==>
                !('A' <= FormatFromIdent(r, ident, a, inherited)[i] <= 'Z')
  {
  }

  /** `is_resolvable`: the unquoted identifier must contain the delimiter,
      and the key after its first occurrence must be a single `/`-segment;
      only then is the inherited test consulted, on the unquoted identifier.
      Python's `split` raises a ValueError for an empty delimiter. */
  function IsResolvable(r: Resolver, ident: string, unquote: string -> string,
                        inherited: string -> bool): (res: Result<bool, Error>)
    ensures res.Err? <==> r.delimiter == ""
    ensures res.Err? ==> res.error == ValueError(EmptySeparatorMessage)
    ensures !Contains(unquote(ident), r.delimiter) ==> res == Ok(false)
    ensures res == Ok(true) <==>
              r.delimiter != "" && Contains(unquote(ident), r.delimiter) &&
              '/' !in SplitFirst(unquote(ident), r.delimiter).value.1 &&
              inherited(unquote(ident))
  {
    var u := unquote(ident);
    if !Contains(u, r.delimiter) then
      ContainsEmpty(u);
      Ok(false)
    else if r.delimiter == "" then Err(ValueError(EmptySeparatorMessage))
    else
      var (bucketSuffix, keyname) := SplitFirst(u, r.delimiter).value;
      var keys := Split(keyname, '/');
      SplitManyIff(keyname, '/');
      if |keys| > 1 then Ok(false) else Ok(inherited(u))
  }

  /** A key with more than one path segment is refused whatever the
      inherited test would say: that test is not consulted. */
  lemma {:induction false} SegmentedKeyRefused(r: Resolver, ident: string, unquote: string -> string,
                                               inherited: string -> bool, other: string -> bool)
    requires r.delimiter != "" && Contains(unquote(ident), r.delimiter)
    requires '/' in SplitFirst(unquote(ident), r.delimiter).value.1
    ensures IsResolvable(r, ident, unquote, inherited) == Ok(false)
    ensures IsResolvable(r, ident, unquote, inherited) == IsResolvable(r, ident, unquote, other)
  {
    SplitManyIff(SplitFirst(unquote(ident), r.delimiter).value.1, '/');
  }

  /** The key name sent to the listing: `_<ident_suffix>` is appended exactly
      when a non-empty suffix is configured and the key differs from the
      bucket suffix. */
  function KeyName(keyname: string, bucketSuffix: string, identSuffix: Option<string>): (k: string)
    ensures k != keyname <==> identSuffix.Some? && identSuffix.value != "" && keyname != bucketSuffix
    ensures k != keyname ==> k == keyname + "_" + identSuffix.value
  {
    if identSuffix.Some? && identSuffix.value != "" && keyname != bucketSuffix then
      keyname + "_" + identSuffix.value
    else keyname
  }

  /** `'.'.join([bucket, suffix])`: the configured bucket, a dot, the
      bucket suffix, and nothing else. */
  function BucketName(bucket: string, bucketSuffix: string): (b: string)
    ensures |b| == |bucket| + 1 + |bucketSuffix|
    ensures b[..|bucket|] == bucket && b[|bucket|] == '.' && b[|bucket| + 1..] == bucketSuffix
  {
    assert [bucket, bucketSuffix][1..] == [bucketSuffix];
    assert Join([bucketSuffix], ".") == bucketSuffix;
    var b := Join([bucket, bucketSuffix], ".");
    assert b == bucket + "." + bucketSuffix;
    b
  }

  /** `request_options`: no credentials are passed with the request. */
  function RequestOptions(): (o: map<string, string>)
    ensures |o| == 0
  {
    map[]
  }

  /** `_web_request_url`: nothing for an identifier without the delimiter;
      otherwise the bucket `<bucket>.<suffix>` is listed with the shaped key
      as prefix, and the first key found is signed for an hour and returned
      with the request options; an empty listing gives nothing. `list` and
      `sign` stand for the S3 SDK. */
  method WebRequestUrl(r: Resolver, ident: string, list: (string, string) -> seq<string>,
                       sign: (string, string, nat) -> string)
    returns (res: Result<Option<(string, map<string, string>)>, Error>)
    ensures !Contains(ident, r.delimiter) ==> res == Ok(None)
    ensures Contains(ident, r.delimiter) && r.delimiter == "" ==> res == Err(ValueError(EmptySeparatorMessage))
    ensures Contains(ident, r.delimiter) && r.delimiter != "" && r.bucket.None? ==>
              res == Err(TypeError(NoneBucketMessage))
    ensures Contains(ident, r.delimiter) && r.delimiter != "" && r.bucket.Some? ==>
              var split := SplitFirst(ident, r.delimiter).value;
              var bucketName := r.bucket.value + "." + split.0;
              var keys := list(bucketName, KeyName(split.1, split.0, r.identSuffix));
              res == if keys == [] then Ok(None) else Ok(Some((sign(bucketName, keys[0], UrlExpiry), map[])))
  {
    var found := Find(ident, r.delimiter);
    if found.None? {
      return Ok(None);
    }
    if r.delimiter == "" {
      return Err(ValueError(EmptySeparatorMessage));
    }
    var bucketSuffix, keyname := ident[..found.value], ident[found.value + |r.delimiter|..];
    assert SplitFirst(ident, r.delimiter) == Some((bucketSuffix, keyname));
    if r.identSuffix.Some? && r.identSuffix.value != "" && keyname != bucketSuffix {
      keyname := keyname + "_" + r.identSuffix.value;
    }
    if r.bucket.None? {
      return Err(TypeError(NoneBucketMessage));
    }
    var bucketName := BucketName(r.bucket.value, bucketSuffix);
    assert bucketName == r.bucket.value + "." + bucketSuffix;
    var keys := list(bucketName, keyname);
    for i := 0 to |keys|
      invariant i == 0
    {
      var options := RequestOptions();
      return Ok(Some((sign(bucketName, keys[i], UrlExpiry), options)));
    }
    return Ok(None);
  }

  /** An identifier `bucketA:myimage` with the default delimiter and no
      identifier suffix names bucket `<bucket>.bucketA` and key `myimage`. */
  lemma ExampleIdentifier(bucket: string)
    ensures SplitFirst("bucketA:myimage", DefaultDelimiter) == Some(("bucketA", "myimage"))
    ensures BucketName(bucket, "bucketA") == bucket + ".bucketA"
    ensures KeyName("myimage", "bucketA", None) == "myimage"
  {
    ContainsChar("bucketA", ':');
    SplitFirstOfJoinChar("bucketA", ':', "myimage");
    assert "bucketA" + [':'] + "myimage" == "bucketA:myimage";
    var b := BucketName(bucket, "bucketA");
    assert b == b[..|bucket|] + [b[|bucket|]] + b[|bucket| + 1..];
  }
}
