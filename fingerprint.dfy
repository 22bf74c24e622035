/** The device fingerprint: three request headers joined with `-` (the raw
    string) and a bcrypt hash of that string at cost 7. */
module Fingerprints {
  import opened Common

  /** Values of the `FingerprintKeys` enumeration, in declaration order. */
  const FINGERPRINT_KEYS: seq<string> := ["sec-ch-ua", "user-agent", "accept-language"]

  const FINGERPRINT_HASH_COST: nat := 7

  type Headers = map<string, string>

  /** `headers[name]`; a missing header is `undefined`, which `join` renders as "". */
  function HeaderValue(headers: Headers, name: string): string
  {
    if name in headers then headers[name] else ""
  }

  /** `Array.prototype.join(sep)`. */
  function Join(parts: seq<string>, sep: string): string
  {
    if |parts| == 0 then ""
    else if |parts| == 1 then parts[0]
    else parts[0] + sep + Join(parts[1..], sep)
  }

  function HeaderValues(headers: Headers, names: seq<string>): (vs: seq<string>)
    ensures |vs| == |names|
    ensures forall i :: 0 <= i < |names| ==> vs[i] == HeaderValue(headers, names[i])
  {
    if |names| == 0 then [] else [HeaderValue(headers, names[0])] + HeaderValues(headers, names[1..])
  }

  /** `Object.keys(FingerprintKeys).map(key => headers[FingerprintKeys[key]]).join('-')`. */
  function ReqHeadersString(headers: Headers): (raw: string)
    ensures raw == HeaderValue(headers, "sec-ch-ua") + "-" + HeaderValue(headers, "user-agent")
                   + "-" + HeaderValue(headers, "accept-language")
  {
    var vs := HeaderValues(headers, FINGERPRINT_KEYS);
    assert vs == [vs[0], vs[1], vs[2]];
    assert vs[1..] == [vs[1], vs[2]];
    assert vs[1..][1..] == [vs[2]];
    assert Join(vs[1..], "-") == vs[1] + "-" + vs[2];
    assert Join(vs, "-") == vs[0] + "-" + (vs[1] + "-" + vs[2]);
    Join(vs, "-")
  }

  /** The raw string depends on the three fingerprint headers only. */
  lemma OnlyFingerprintHeadersMatter(h1: Headers, h2: Headers)
    requires forall i :: 0 <= i < |FINGERPRINT_KEYS| ==>
               HeaderValue(h1, FINGERPRINT_KEYS[i]) == HeaderValue(h2, FINGERPRINT_KEYS[i])
    ensures ReqHeadersString(h1) == ReqHeadersString(h2)
  {
    assert HeaderValue(h1, FINGERPRINT_KEYS[0]) == HeaderValue(h2, FINGERPRINT_KEYS[0]);
    assert HeaderValue(h1, FINGERPRINT_KEYS[1]) == HeaderValue(h2, FINGERPRINT_KEYS[1]);
    assert HeaderValue(h1, FINGERPRINT_KEYS[2]) == HeaderValue(h2, FINGERPRINT_KEYS[2]);
  }

  /** `IFingerprint`: the raw string and its salted hash. */
  datatype IFingerprint = IFingerprint(reqHeadersString: string, hashFingerprint: Hash)

  /** The key a handler may pass to the `@Fingerprint(...)` decorator. */
  datatype Selector = HashFingerprintKey | ReqHeadersStringKey

  /** What the decorator injects into the handler's parameter. */
  datatype Injected = HashOnly(hash: Hash) | RawOnly(raw: string) | Both(fingerprint: IFingerprint)

  /** The bundle computed for a request; `salt` stands for bcrypt's random salt. */
  function FingerprintOf(headers: Headers, salt: nat): (fp: IFingerprint)
    ensures fp.reqHeadersString == ReqHeadersString(headers)
    ensures Compare(fp.reqHeadersString, fp.hashFingerprint)
    ensures fp.hashFingerprint.cost == FINGERPRINT_HASH_COST
  {
    var raw := ReqHeadersString(headers);
    IFingerprint(raw, HashSync(raw, FINGERPRINT_HASH_COST, salt))
  }

  /** The `Fingerprint` parameter decorator: the selector picks one field,
      no selector gives both. */
  function FingerprintDecorator(data: Option<Selector>, headers: Headers, salt: nat): (r: Injected)
    ensures data == Some(HashFingerprintKey) ==> r == HashOnly(FingerprintOf(headers, salt).hashFingerprint)
    ensures data == Some(ReqHeadersStringKey) ==> r == RawOnly(ReqHeadersString(headers))
    ensures data.None? ==> r.Both? && r.fingerprint.reqHeadersString == ReqHeadersString(headers)
                           && Compare(ReqHeadersString(headers), r.fingerprint.hashFingerprint)
  {
    var fp := FingerprintOf(headers, salt);
    match data
    case Some(HashFingerprintKey) => HashOnly(fp.hashFingerprint)
    case Some(ReqHeadersStringKey) => RawOnly(fp.reqHeadersString)
    case None => Both(fp)
  }

  /** Two requests whose fingerprint headers agree produce bundles whose hashes
      accept each other's raw string, whatever the salts. */
  lemma SameDeviceMatches(h1: Headers, h2: Headers, salt1: nat, salt2: nat)
    requires forall i :: 0 <= i < |FINGERPRINT_KEYS| ==>
               HeaderValue(h1, FINGERPRINT_KEYS[i]) == HeaderValue(h2, FINGERPRINT_KEYS[i])
    ensures Compare(FingerprintOf(h2, salt2).reqHeadersString, FingerprintOf(h1, salt1).hashFingerprint)
  {
    OnlyFingerprintHeadersMatter(h1, h2);
  }
}
