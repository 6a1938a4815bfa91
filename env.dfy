/**
  `getClientEnvironment`: the environment variables handed to the browser
  bundle. `raw` holds `PUBLIC_URL` and every variable whose name starts with
  `HAMMAL_APP_` in any letter case; `stringified` holds, under the same
  names, each value written as a JSON string, and is what the bundler
  substitutes for `process.env`.
 */
module ClientEnv {

  import opened Wrappers
  import opened Dicts
  import opened JsonString

  const PublicUrlKey: string := "PUBLIC_URL"
  const AppPrefix: string := "HAMMAL_APP_"

  /** Upper case of an ASCII letter; every other character is its own. */
  function AsciiUpper(c: char): char {
    if 'a' <= c <= 'z' then (c as int - 'a' as int + 'A' as int) as char else c
  }

  /**
    `/^HAMMAL_APP_/i.test(key)`. A case-insensitive pattern without the `u`
    flag never matches an ASCII pattern letter with a non-ASCII character, so
    the comparison folds ASCII letters only.
   */
  predicate IsAppKey(key: string) {
    |key| >= |AppPrefix| && forall i :: 0 <= i < |AppPrefix| ==> AsciiUpper(key[i]) == AppPrefix[i]
  }

  /** The names that pass the prefix test, in their order. */
  function AppKeys(keys: seq<string>): (r: seq<string>)
    ensures forall k :: k in r <==> k in keys && IsAppKey(k)
    ensures Distinct(keys) ==> Distinct(r)
    decreases |keys|
  {
    if keys == [] then []
    else
      var rest := AppKeys(keys[1..]);
      assert Distinct(keys) ==> Distinct(keys[1..]) && keys[0] !in keys[1..] by {
        if Distinct(keys) {
          forall i | 0 <= i < |keys[1..]| ensures keys[1..][i] != keys[0] { assert keys[1..][i] == keys[i + 1]; }
          forall i, j | 0 <= i < j < |keys[1..]| ensures keys[1..][i] != keys[1..][j] {
            assert keys[1..][i] == keys[i + 1] && keys[1..][j] == keys[j + 1];
          }
        }
      }
      if IsAppKey(keys[0]) then
        assert Distinct(keys) ==> Distinct([keys[0]] + rest) by {
          if Distinct(keys) { DistinctAppend([keys[0]], rest); }
        }
        [keys[0]] + rest
      else rest
  }

  lemma PublicUrlIsNoAppKey()
    ensures !IsAppKey(PublicUrlKey)
  {
    assert AsciiUpper(PublicUrlKey[0]) != AppPrefix[0];
  }

  /** `raw`, and the object under `process.env` in `stringified`. */
  datatype ClientEnvironment = ClientEnvironment(raw: Dict<string>, stringified: Dict<string>)

  /** The JSON encodings of the values of `raw`. */
  function Encoded(raw: Dict<string>): (src: map<string, string>)
    ensures src.Keys == raw.vals.Keys
    ensures forall k :: k in src ==> src[k] == Quote(raw.vals[k])
  {
    map k | k in raw.vals :: Quote(raw.vals[k])
  }

  /** `raw`: `{PUBLIC_URL: publicUrl}`, then each matching variable of `env` copied in order. */
  function RawEnvironment(env: Dict<string>, publicUrl: string): (raw: Dict<string>)
    requires env.Valid()
    ensures raw.Valid()
    ensures raw.keys == [PublicUrlKey] + AppKeys(env.keys)
    ensures forall k :: k in raw.vals <==> k == PublicUrlKey || (k in env.vals && IsAppKey(k))
    ensures raw.vals[PublicUrlKey] == publicUrl
    ensures forall k :: k in env.vals && IsAppKey(k) ==> raw.vals[k] == env.vals[k]
  {
    var seed := Put(Empty(), PublicUrlKey, publicUrl);
    var matched := AppKeys(env.keys);
    PublicUrlIsNoAppKey();
    PutEachFresh(seed, matched, env.vals);
    PutEach(seed, matched, env.vals)
  }

  /** The object under `process.env`: every value of `raw` as a JSON string, under the same names. */
  function StringifyValues(raw: Dict<string>): (s: Dict<string>)
    requires raw.Valid()
    ensures s.Valid() && s.keys == raw.keys
    ensures forall k :: k in s.vals <==> k in raw.vals
    ensures forall k :: k in raw.vals ==> s.vals[k] == Quote(raw.vals[k])
  {
    var src := Encoded(raw);
    PutEachFresh(Empty(), raw.keys, src);
    PutEach(Empty(), raw.keys, src)
  }

  /** `getClientEnvironment(publicUrl)` over the environment `env`. */
  function GetClientEnvironment(env: Dict<string>, publicUrl: string): (r: ClientEnvironment)
    requires env.Valid()
    ensures r.raw.Valid() && r.stringified.Valid()
    ensures r.raw.keys == [PublicUrlKey] + AppKeys(env.keys)
    ensures forall k :: k in r.raw.vals <==> k == PublicUrlKey || (k in env.vals && IsAppKey(k))
    ensures r.raw.vals[PublicUrlKey] == publicUrl
    ensures forall k :: k in env.vals && IsAppKey(k) ==> r.raw.vals[k] == env.vals[k]
    ensures r.stringified.keys == r.raw.keys
    ensures forall k :: k in r.stringified.vals <==> k in r.raw.vals
    ensures forall k :: k in r.raw.vals ==> r.stringified.vals[k] == Quote(r.raw.vals[k])
  {
    var raw := RawEnvironment(env, publicUrl);
    ClientEnvironment(raw, StringifyValues(raw))
  }

  /** Every stringified value is a JSON string literal that denotes the raw value. */
  lemma StringifiedDecodes(env: Dict<string>, publicUrl: string, k: string)
    requires env.Valid()
    requires k in GetClientEnvironment(env, publicUrl).raw.vals
    ensures var r := GetClientEnvironment(env, publicUrl);
      Unquote(r.stringified.vals[k]) == Some(r.raw.vals[k])
  {
    QuoteRoundTrip(GetClientEnvironment(env, publicUrl).raw.vals[k]);
  }

  /** No environment variable replaces `PUBLIC_URL`, whatever the environment holds. */
  lemma PublicUrlKept(env: Dict<string>, publicUrl: string)
    requires env.Valid()
    ensures GetClientEnvironment(env, publicUrl).raw.vals[PublicUrlKey] == publicUrl
    ensures GetClientEnvironment(env, publicUrl).stringified.vals[PublicUrlKey] == Quote(publicUrl)
  {
  }
}
