/** A sender's identity: the phone number as sent, reduced to the characters that may
    appear in a storage key, and the key of the sender's conversation log. */
module Identity {
  import opened Text

  /** `sanitize_phone_number`: the alphanumeric characters of the number, in order. */
  function Sanitize(phone: string): (r: string)
    ensures |r| <= |phone|
    ensures forall k :: 0 <= k < |r| ==> IsAlnum(r[k])
  {
    if phone == [] then []
    else if IsAlnum(phone[0]) then [phone[0]] + Sanitize(phone[1..])
    else Sanitize(phone[1..])
  }

  /** `t` can be obtained from `s` by deleting characters. */
  predicate IsSubsequence(t: string, s: string)
    decreases |s|
  {
    t == [] || (s != [] && (if t[0] == s[0] then IsSubsequence(t[1..], s[1..]) else IsSubsequence(t, s[1..])))
  }

  /** Sanitizing keeps every alphanumeric character as often as it occurs and drops all
      others. */
  lemma {:induction false} SanitizeCounts(phone: string, c: char)
    ensures multiset(Sanitize(phone))[c] == if IsAlnum(c) then multiset(phone)[c] else 0
  {
    if phone != [] {
      SanitizeCounts(phone[1..], c);
      assert phone == [phone[0]] + phone[1..];
    }
  }

  /** The kept characters stay in their original order. */
  lemma {:induction false} SanitizeSubsequence(phone: string)
    ensures IsSubsequence(Sanitize(phone), phone)
  {
    if phone != [] {
      SanitizeSubsequence(phone[1..]);
      var r := Sanitize(phone[1..]);
      if IsAlnum(phone[0]) {
        assert ([phone[0]] + r)[1..] == r;
      } else {
        SubsequenceSkip(r, phone);
      }
    }
  }

  /** A subsequence of the tail is a subsequence of the whole. */
  lemma {:induction false} SubsequenceSkip(t: string, s: string)
    requires s != [] && IsSubsequence(t, s[1..])
    ensures IsSubsequence(t, s)
    decreases |s|, 0
  {
    if t != [] && t[0] == s[0] {
      SubsequenceTail(t, s[1..]);
    }
  }

  /** Dropping the first character of a subsequence leaves a subsequence. */
  lemma {:induction false} SubsequenceTail(t: string, s: string)
    requires t != [] && IsSubsequence(t, s)
    ensures IsSubsequence(t[1..], s)
    decreases |s|, 1
  {
    if t[0] == s[0] {
      SubsequenceSkip(t[1..], s);
    } else {
      SubsequenceTail(t, s[1..]);
      SubsequenceSkip(t[1..], s);
    }
  }

  /** Sanitizing a concatenation sanitizes each part. */
  lemma {:induction false} SanitizeAppend(a: string, b: string)
    ensures Sanitize(a + b) == Sanitize(a) + Sanitize(b)
  {
    if a != [] {
      assert (a + b)[0] == a[0] && (a + b)[1..] == a[1..] + b;
      SanitizeAppend(a[1..], b);
    } else {
      assert a + b == b;
    }
  }

  /** A number made only of letters and digits is its own sanitized form. */
  lemma {:induction false} SanitizeKeepsClean(phone: string)
    requires forall k :: 0 <= k < |phone| ==> IsAlnum(phone[k])
    ensures Sanitize(phone) == phone
  {
    if phone != [] {
      SanitizeKeepsClean(phone[1..]);
    }
  }

  /** Sanitizing twice changes nothing more. */
  lemma SanitizeIdempotent(phone: string)
    ensures Sanitize(Sanitize(phone)) == Sanitize(phone)
  {
    SanitizeKeepsClean(Sanitize(phone));
  }

  /** The S3 key of the sender's log: `logs/<sanitized number>.log`. */
  function LogKey(phone: string): (key: string)
    ensures |key| == |Sanitize(phone)| + 9
    ensures key[..5] == "logs/" && key[|key| - 4..] == ".log"
    ensures key[5..|key| - 4] == Sanitize(phone)
  {
    "logs/" + Sanitize(phone) + ".log"
  }

  /** Two numbers share a log exactly when they sanitize to the same characters. */
  lemma LogKeyShared(a: string, b: string)
    ensures LogKey(a) == LogKey(b) <==> Sanitize(a) == Sanitize(b)
  {
    if LogKey(a) == LogKey(b) {
      var n := |Sanitize(a)|;
      assert Sanitize(a) == LogKey(a)[5..5 + n];
      assert Sanitize(b) == LogKey(b)[5..5 + n];
    }
  }

  /** Punctuation inserted anywhere in a number leaves its log key unchanged. */
  lemma PunctuationSharesLog(a: string, p: string, b: string)
    requires forall k :: 0 <= k < |p| ==> !IsAlnum(p[k])
    ensures LogKey(a + p + b) == LogKey(a + b)
  {
    SanitizeAppend(a + p, b);
    SanitizeAppend(a, p);
    SanitizeAppend(a, b);
    SanitizeDropsAll(p);
  }

  /** A string without letters or digits sanitizes to nothing. */
  lemma {:induction false} SanitizeDropsAll(p: string)
    requires forall k :: 0 <= k < |p| ==> !IsAlnum(p[k])
    ensures Sanitize(p) == []
  {
    if p != [] {
      SanitizeDropsAll(p[1..]);
    }
  }

  /** A number already made of letters and digits names its log directly. */
  lemma CleanLogKey(phone: string)
    requires forall k :: 0 <= k < |phone| ==> IsAlnum(phone[k])
    ensures LogKey(phone) == "logs/" + phone + ".log"
  {
    SanitizeKeepsClean(phone);
  }

  /** `+1-555` and `1555` write to the same log. */
  lemma ExampleSharedLog()
    ensures LogKey("+1-555") == LogKey("1555")
  {
    PunctuationSharesLog("+1", "-", "555");
    PunctuationSharesLog("", "+", "1555");
    assert "+1" + "-" + "555" == "+1-555";
    assert "+1" + "555" == "" + "+" + "1555";
    assert "" + "1555" == "1555";
  }
}
