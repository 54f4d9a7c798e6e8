/** The deployment settings the handler reads from its environment. A variable that is not
    set is modelled as the empty string, which the handler treats the same way. */
module Settings {
  import opened Text

  datatype Config = Config(
    bucket: string,
    accountSid: string,
    authToken: string,
    notificationEmail: string,
    attachLogFile: bool,
    allowedNumbers: seq<string>,
    webhookUrl: string)

  /** A value with no white space at either end, and not empty. */
  predicate Stripped(s: string) {
    s != [] && !IsSpace(s[0]) && !IsSpace(s[|s| - 1])
  }

  /** The stripped, non-empty pieces, in order. */
  function KeepStripped(parts: seq<string>): (r: seq<string>)
    ensures |r| <= |parts|
    ensures forall k :: 0 <= k < |r| ==> Stripped(r[k])
  {
    if parts == [] then []
    else
      var t := Strip(parts[0]);
      StripStripped(parts[0]);
      (if t != [] then [t] else []) + KeepStripped(parts[1..])
  }

  /** What strip leaves is empty or stripped. */
  lemma StripStripped(s: string)
    ensures Strip(s) == [] || Stripped(Strip(s))
  {
    var t := TrimStart(s);
    var r := TrimEnd(t);
    if r != [] {
      assert r[0] == t[0];
    }
  }

  /** `ALLOWED_PHONE_NUMBERS`: the comma-separated numbers, each stripped, empty ones
      dropped. */
  function ParseAllowList(raw: string): (r: seq<string>)
    ensures forall k :: 0 <= k < |r| ==> Stripped(r[k])
  {
    KeepStripped(Split(raw, ','))
  }

  /** The numbers kept from pieces a then b are those kept from a, then those kept from b. */
  lemma {:induction false} KeepStrippedAppend(a: seq<string>, b: seq<string>)
    ensures KeepStripped(a + b) == KeepStripped(a) + KeepStripped(b)
    decreases |a|
  {
    if a != [] {
      assert (a + b)[1..] == a[1..] + b;
      KeepStrippedAppend(a[1..], b);
    } else {
      assert a + b == b;
    }
  }

  /** One piece gives its stripped text, unless that is empty. */
  lemma KeepStrippedOne(x: string)
    ensures KeepStripped([x]) == if Strip(x) != "" then [Strip(x)] else []
  {
    assert [x][1..] == [];
  }

  /** Every piece strips to nothing. */
  predicate AllBlank(parts: seq<string>) {
    forall k :: 0 <= k < |parts| ==> Strip(parts[k]) == ""
  }

  /** No number is kept exactly when every piece strips to nothing. */
  lemma {:induction false} KeepStrippedEmpty(parts: seq<string>)
    ensures KeepStripped(parts) == [] <==> AllBlank(parts)
    decreases |parts|
  {
    if parts != [] {
      var t := Strip(parts[0]);
      var rest := parts[1..];
      KeepStrippedEmpty(rest);
      assert KeepStripped(parts) == (if t != [] then [t] else []) + KeepStripped(rest);
      if AllBlank(parts) {
        forall k | 0 <= k < |rest| ensures Strip(rest[k]) == "" {
          assert rest[k] == parts[k + 1];
        }
      } else if t == "" {
        var k :| 0 <= k < |parts| && Strip(parts[k]) != "";
        assert rest[k - 1] == parts[k];
      }
    }
  }

  /** The allow-list is empty exactly when every comma piece of the raw value is blank. */
  lemma AllowListEmpty(raw: string)
    ensures ParseAllowList(raw) == [] <==> AllBlank(Split(raw, ','))
  {
    KeepStrippedEmpty(Split(raw, ','));
  }

  /** The allow-list read from comma-free pieces joined by commas: each piece stripped, in
      order, with the empty ones dropped. */
  lemma AllowListPieces(pieces: seq<string>)
    requires pieces != []
    requires forall k :: 0 <= k < |pieces| ==> ',' !in pieces[k]
    ensures ParseAllowList(Join(pieces, ',')) == KeepStripped(pieces)
  {
    SplitJoin(pieces, ',');
  }

  /** A list of stripped numbers without commas survives being written comma-separated
      and read back. */
  lemma AllowListRoundTrip(numbers: seq<string>)
    requires forall k :: 0 <= k < |numbers| ==> Stripped(numbers[k]) && ',' !in numbers[k]
    ensures ParseAllowList(Join(numbers, ',')) == numbers
  {
    if numbers == [] {
      assert Split("", ',') == [""];
      assert Strip("") == "";
    } else {
      SplitJoin(numbers, ',');
      KeepStrippedUnchanged(numbers);
    }
  }

  /** Pieces already stripped are all kept as they are. */
  lemma {:induction false} KeepStrippedUnchanged(parts: seq<string>)
    requires forall k :: 0 <= k < |parts| ==> Stripped(parts[k])
    ensures KeepStripped(parts) == parts
  {
    if parts != [] {
      StripUnchanged(parts[0]);
      KeepStrippedUnchanged(parts[1..]);
    }
  }

  /** The configuration read from the environment: the plain values as they are, the
      attach flag and the allow-list parsed from their raw text. */
  function Load(bucket: string, accountSid: string, authToken: string, notificationEmail: string,
                attachRaw: string, allowedRaw: string, webhookUrl: string): (cfg: Config)
    ensures cfg.attachLogFile == AttachFlag(attachRaw) && cfg.allowedNumbers == ParseAllowList(allowedRaw)
  {
    Config(bucket, accountSid, authToken, notificationEmail, AttachFlag(attachRaw), ParseAllowList(allowedRaw), webhookUrl)
  }

  /** ASCII `str.lower()` of one character. */
  function LowerChar(c: char): char {
    if 'A' <= c <= 'Z' then (c as int + 32) as char else c
  }

  /** ASCII `str.lower()`. */
  function Lower(s: string): (r: string)
    ensures |r| == |s|
    ensures forall k :: 0 <= k < |s| ==> r[k] == LowerChar(s[k])
  {
    if s == [] then [] else [LowerChar(s[0])] + Lower(s[1..])
  }

  /** `ATTACH_LOG_FILE`: set exactly when the value is "true" in any mix of cases. */
  function AttachFlag(raw: string): bool {
    Lower(raw) == "true"
  }

  /** The flag is set exactly when the value has four characters, each the letter of
      "true" at that place in lower or upper case. */
  lemma AttachFlagAnyCase(raw: string)
    ensures AttachFlag(raw) <==>
      |raw| == 4 && forall k :: 0 <= k < 4 ==> raw[k] == "true"[k] || raw[k] == "TRUE"[k]
  {
    if |raw| == 4 && forall k :: 0 <= k < 4 ==> raw[k] == "true"[k] || raw[k] == "TRUE"[k] {
      assert forall k :: 0 <= k < 4 ==> Lower(raw)[k] == "true"[k];
    }
    if AttachFlag(raw) {
      forall k | 0 <= k < 4 ensures raw[k] == "true"[k] || raw[k] == "TRUE"[k] {
        assert LowerChar(raw[k]) == "true"[k];
      }
    }
  }

  /** Case does not matter; other spellings of yes do not count. */
  lemma AttachFlagExamples()
    ensures AttachFlag("TRUE") && AttachFlag("True") && !AttachFlag("yes") && !AttachFlag("")
  {
    assert Lower("TRUE") == "true";
    assert Lower("True") == "true";
  }
}
