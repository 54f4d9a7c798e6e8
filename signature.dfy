/** Authenticity check of a webhook call: the provider signs the callback URL followed by
    every field name and value, names in ascending order. */
module Signature {
  import opened Wrappers
  import opened Payload
  import opened Ordering

  /** HMAC-SHA1 of a message under a key, base64-encoded: (key, message) -> signature. */
  type Mac = (string, string) -> string

  /** The concatenation of name + value over the names ks, each looked up in p. */
  function SignedPairs(p: seq<Field>, ks: seq<string>): string
    requires forall i :: 0 <= i < |ks| ==> ks[i] in Keys(p)
  {
    if ks == [] then ""
    else
      var k := ks[|ks| - 1];
      SignedPairs(p, ks[..|ks| - 1]) + k + Lookup(p, k).value
  }

  /** Signing one more name appends that name and its value. */
  lemma SignedPairsStep(p: seq<Field>, ks: seq<string>, i: nat)
    requires i < |ks|
    requires forall j :: 0 <= j < |ks| ==> ks[j] in Keys(p)
    ensures SignedPairs(p, ks[..i + 1]) == SignedPairs(p, ks[..i]) + ks[i] + Lookup(p, ks[i]).value
  {
    assert ks[..i + 1][..i] == ks[..i];
  }

  /** The sorted field names of p are exactly its field names. */
  lemma SortedKeysOfPayload(p: seq<Field>)
    ensures Sorted(Sort(Keys(p)))
    ensures forall i :: 0 <= i < |Sort(Keys(p))| ==> Sort(Keys(p))[i] in Keys(p)
  {
    SortCorrect(Keys(p));
    forall i | 0 <= i < |Sort(Keys(p))| ensures Sort(Keys(p))[i] in Keys(p) {
      assert Sort(Keys(p))[i] in multiset(Sort(Keys(p)));
    }
  }

  /** The string the provider signs: the URL, then name + value for every field, names ascending. */
  function StringToSign(url: string, p: Fields): string {
    SortedKeysOfPayload(p);
    url + SignedPairs(p, Sort(Keys(p)))
  }

  /** The verdict of the check: false on an empty signature, secret or URL, and otherwise
      whether the MAC of the string to sign equals the signature. */
  predicate SignatureValid(url: string, p: Fields, signature: string, authToken: string, mac: Mac) {
    signature != "" && authToken != "" && url != "" && mac(authToken, StringToSign(url, p)) == signature
  }

  /** Every character is ASCII; `hmac.compare_digest` accepts only such str values. */
  predicate IsAscii(s: string) {
    forall k :: 0 <= k < |s| ==> s[k] < 128 as char
  }

  /** What `validate_twilio_signature` does: Some(verdict), or None when the comparison
      raises because the signature or the expected MAC holds a non-ASCII character. */
  function SignatureCheck(url: string, p: Fields, signature: string, authToken: string, mac: Mac): (r: Option<bool>)
    ensures signature == "" || authToken == "" || url == "" ==> r == Some(false)
    ensures r == Some(true) <==> SignatureValid(url, p, signature, authToken, mac) && IsAscii(signature)
    ensures r.None? <==>
      (signature != "" && authToken != "" && url != "" &&
       !(IsAscii(signature) && IsAscii(mac(authToken, StringToSign(url, p)))))
  {
    if signature == "" || authToken == "" || url == "" then Some(false)
    else
      var expected := mac(authToken, StringToSign(url, p));
      if IsAscii(expected) && IsAscii(signature) then Some(expected == signature) else None
  }

  /** With an ASCII signature and an ASCII MAC (base64 text always is), the check does not
      raise and its verdict is whether the signature is valid. */
  lemma AsciiSignatureDecides(url: string, p: Fields, signature: string, authToken: string, mac: Mac)
    requires IsAscii(signature) && IsAscii(mac(authToken, StringToSign(url, p)))
    ensures SignatureCheck(url, p, signature, authToken, mac) == Some(SignatureValid(url, p, signature, authToken, mac))
  {
  }

  method ValidateSignature(url: string, params: Fields, signature: string, authToken: string, mac: Mac)
    returns (verdict: Option<bool>)
    ensures signature == "" || authToken == "" || url == "" ==> verdict == Some(false)
    ensures verdict == SignatureCheck(url, params, signature, authToken, mac)
  {
    if signature == "" || authToken == "" || url == "" {
      return Some(false);
    }
    var s := BuildStringToSign(url, params);
    var expected := mac(authToken, s);
    if !IsAscii(expected) || !IsAscii(signature) {
      return None;
    }
    verdict := Some(expected == signature);
  }

  /** The string to sign, built by the source's loop over the ascending field names. */
  method BuildStringToSign(url: string, params: Fields) returns (s: string)
    ensures s == StringToSign(url, params)
  {
    var keys := Sort(Keys(params));
    SortedKeysOfPayload(params);
    var pairs := SignPairs(params, keys);
    s := url + pairs;
  }

  /** The loop body of the source: name + value appended for each listed name in turn. */
  method SignPairs(params: Fields, keys: seq<string>) returns (pairs: string)
    requires forall j :: 0 <= j < |keys| ==> keys[j] in Keys(params)
    ensures pairs == SignedPairs(params, keys)
  {
    pairs := "";
    var i := 0;
    while i < |keys|
      invariant 0 <= i <= |keys|
      invariant pairs == SignedPairs(params, keys[..i])
    {
      var key := keys[i];
      SignedPairsStep(params, keys, i);
      pairs := pairs + key + Lookup(params, key).value;
      i := i + 1;
    }
    assert keys[..i] == keys;
  }

  /** Names listed alike and looked up in two payloads with the same fields sign alike. */
  lemma {:induction false} SignedPairsSameFields(p1: Fields, p2: Fields, ks: seq<string>)
    requires multiset(p1) == multiset(p2)
    requires forall i :: 0 <= i < |ks| ==> ks[i] in Keys(p1) && ks[i] in Keys(p2)
    ensures SignedPairs(p1, ks) == SignedPairs(p2, ks)
  {
    if ks != [] {
      var k := ks[|ks| - 1];
      var v := Lookup(p1, k).value;
      assert (k, v) in multiset(p2);
      LookupField(p2, k, v);
      SignedPairsSameFields(p1, p2, ks[..|ks| - 1]);
    }
  }

  /** The verdict does not depend on the order in which the fields arrived: reordering the
      payload changes neither the string to sign nor the result. */
  lemma SignatureIgnoresFieldOrder(url: string, p1: Fields, p2: Fields, signature: string, authToken: string, mac: Mac)
    requires multiset(p1) == multiset(p2)
    ensures StringToSign(url, p1) == StringToSign(url, p2)
    ensures SignatureValid(url, p1, signature, authToken, mac) == SignatureValid(url, p2, signature, authToken, mac)
    ensures SignatureCheck(url, p1, signature, authToken, mac) == SignatureCheck(url, p2, signature, authToken, mac)
  {
    SameFieldsSameKeys(p1, p2);
    SortCorrect(Keys(p1));
    SortCorrect(Keys(p2));
    SortedUnique(Sort(Keys(p1)), Sort(Keys(p2)));
    SortedKeysOfPayload(p1);
    SortedKeysOfPayload(p2);
    SignedPairsSameFields(p1, p2, Sort(Keys(p1)));
  }
}
