/** Media attached to a message: each attachment is fetched from the provider and saved
    under `media/<message sid>_<index>.<extension>`; the keys of the saved ones are logged. */
module Media {
  import opened Wrappers
  import opened Text
  import opened Payload
  import opened ObjectStore
  import Identity

  /** Known content types and the file extension each is saved with. */
  const ExtensionTable: map<string, string> := map[
    "image/jpeg" := "jpg",
    "image/png" := "png",
    "image/gif" := "gif",
    "image/webp" := "webp",
    "video/mp4" := "mp4",
    "video/3gpp" := "3gp",
    "video/quicktime" := "mov"]

  /** Where the text after the last '/' among s[..j] starts: 0 when there is none. */
  function SlashEnd(s: string, j: nat): (e: nat)
    requires j <= |s|
    ensures e <= j
    ensures forall k :: e <= k < j ==> s[k] != '/'
    ensures e > 0 ==> s[e - 1] == '/'
  {
    if j == 0 then 0 else if s[j - 1] == '/' then j else SlashEnd(s, j - 1)
  }

  /** `s.split('/')[-1]`: the text after the last '/', or all of s when it has none. */
  function AfterLastSlash(s: string): (r: string)
    ensures |r| <= |s| && r == s[|s| - |r|..]
    ensures '/' !in r
    ensures |r| < |s| ==> s[|s| - |r| - 1] == '/'
  {
    var e := SlashEnd(s, |s|);
    assert forall k :: 0 <= k < |s| - e ==> s[e..][k] == s[e + k];
    s[e..]
  }

  /** The scan stops at the '/' that ends the slash-free stretch before j. */
  lemma {:induction false} SlashEndAt(s: string, j: nat, e: nat)
    requires 0 < e <= j <= |s| && s[e - 1] == '/'
    requires forall k :: e <= k < j ==> s[k] != '/'
    ensures SlashEnd(s, j) == e
    decreases j
  {
    if j > e {
      SlashEndAt(s, j - 1, e);
    }
  }

  /** The text after a final '/' is exactly what follows it. */
  lemma AfterLastSlashOf(prefix: string, last: string)
    requires '/' !in last
    ensures AfterLastSlash(prefix + ['/'] + last) == last
  {
    var s := prefix + ['/'] + last;
    var e := |prefix| + 1;
    assert s[e - 1] == '/';
    assert forall k :: e <= k < |s| ==> s[k] == last[k - e];
    SlashEndAt(s, |s|, e);
    assert s[e..] == last;
  }

  /** The extension a content type is saved with: the table's, else the subtype. */
  function Extension(contentType: string): (ext: string)
    ensures contentType in ExtensionTable ==> ext == ExtensionTable[contentType]
    ensures contentType !in ExtensionTable ==> ext == AfterLastSlash(contentType)
  {
    if contentType in ExtensionTable then ExtensionTable[contentType] else AfterLastSlash(contentType)
  }

  /** The table overrides the subtype of a known content type. */
  lemma ExtensionKnown()
    ensures Extension("image/jpeg") == "jpg" && Extension("video/quicktime") == "mov"
  {
  }

  /** An unknown content type is saved with its subtype. */
  lemma ExtensionUnknown(major: string, subtype: string)
    requires '/' !in subtype
    requires major + ['/'] + subtype !in ExtensionTable
    ensures Extension(major + ['/'] + subtype) == subtype
  {
    AfterLastSlashOf(major, subtype);
  }

  /** The S3 key of the index-th attachment of a message. */
  function MediaKey(sid: string, index: nat, ext: string): (key: string)
    ensures |key| > 6 && key[..6] == "media/"
  {
    "media/" + sid + "_" + NatToString(index) + "." + ext
  }

  /** Distinct attachments of one message are saved under distinct keys. */
  lemma MediaKeyInjective(sid: string, i: nat, e1: string, j: nat, e2: string)
    requires MediaKey(sid, i, e1) == MediaKey(sid, j, e2)
    ensures i == j && e1 == e2
  {
    var p := "media/" + sid + "_";
    var t1, t2 := NatToString(i) + "." + e1, NatToString(j) + "." + e2;
    assert MediaKey(sid, i, e1) == p + t1;
    assert MediaKey(sid, j, e2) == p + t2;
    assert t1 == (p + t1)[|p|..];
    assert t2 == (p + t2)[|p|..];
    DigitsDotSplit(NatToString(i), e1, NatToString(j), e2);
    NatToStringInjective(i, j);
  }

  /** A run of digits, a dot and a rest determine the digits and the rest. */
  lemma DigitsDotSplit(d1: string, e1: string, d2: string, e2: string)
    requires AllDigits(d1) && AllDigits(d2)
    requires d1 + "." + e1 == d2 + "." + e2
    ensures d1 == d2 && e1 == e2
  {
    var t := d1 + "." + e1;
    DigitsThenDot(d1, e1);
    DigitsThenDot(d2, e2);
    assert d1 == t[..|d1|];
    assert d2 == t[..|d2|];
    assert e1 == t[|d1| + 1..];
    assert e2 == (d2 + "." + e2)[|d2| + 1..];
  }

  /** In a run of digits followed by a dot, the first dot ends the digits. */
  lemma DigitsThenDot(d: string, rest: string)
    requires AllDigits(d)
    ensures IndexOf(d + "." + rest, '.') == |d|
  {
    assert d + "." + rest == d + ("." + rest);
    IndexOfConcat(d, "." + rest, '.');
    IndexOfAbsent(d, '.');
  }

  /** The index of a character that does not occur is the length. */
  lemma {:induction false} IndexOfAbsent(s: string, c: char)
    requires forall k :: 0 <= k < |s| ==> s[k] != c
    ensures IndexOf(s, c) == |s|
  {
    if s != [] {
      IndexOfAbsent(s[1..], c);
    }
  }

  /** Saving an attachment never touches a conversation log. */
  lemma MediaKeyIsNotLogKey(sid: string, index: nat, ext: string, phone: string)
    ensures MediaKey(sid, index, ext) != Identity.LogKey(phone)
  {
    assert MediaKey(sid, index, ext)[0] == 'm';
    assert Identity.LogKey(phone)[0] == 'l';
  }

  /** The provider's account credentials; "" stands for a variable that is not set. */
  datatype Credentials = Credentials(accountSid: string, authToken: string)

  /** What became of one download: the fetched data (None when the fetch raised) and
      whether the put of it into the store raised. */
  datatype Transfer = Transfer(fetched: Option<string>, putFault: bool)

  /** The key and data `download_and_save_media` stores, or None when it returns None. */
  function Saved(cred: Credentials, contentType: string, sid: string, index: nat, t: Transfer): (r: Option<(string, string)>)
    ensures cred.accountSid == "" || cred.authToken == "" ==> r == None
    ensures r.Some? <==> cred.accountSid != "" && cred.authToken != "" && t.fetched.Some? && !t.putFault
    ensures r.Some? ==> r.value == (MediaKey(sid, index, Extension(contentType)), t.fetched.value)
  {
    if cred.accountSid == "" || cred.authToken == "" then None
    else if t.fetched.None? || t.putFault then None
    else Some((MediaKey(sid, index, Extension(contentType)), t.fetched.value))
  }

  /** `download_and_save_media`: returns the key of the saved attachment, or None. */
  method DownloadAndSave(store: Store, cred: Credentials, contentType: string, sid: string, index: nat, t: Transfer)
    returns (key: Option<string>)
    modifies store
    ensures var s := Saved(cred, contentType, sid, index, t);
      key == (if s.Some? then Some(s.value.0) else None) &&
      store.objects == (if s.Some? then old(store.objects)[s.value.0 := s.value.1] else old(store.objects))
  {
    if cred.accountSid == "" || cred.authToken == "" {
      return None;
    }
    if t.fetched.None? {
      return None;
    }
    var data := t.fetched.value;
    var ext := Extension(contentType);
    var k := MediaKey(sid, index, ext);
    var ok := store.Put(k, data, t.putFault);
    if !ok {
      return None;
    }
    key := Some(k);
  }

  /** The name of the index-th attachment's field `name<index>`. */
  function IndexedField(name: string, index: nat): string {
    name + NatToString(index)
  }

  /** What the loop does for index i: nothing when `MediaUrl<i>` is absent or empty,
      otherwise the outcome of downloading it. */
  function SavedAt(cred: Credentials, p: seq<Field>, sid: string, transfers: nat -> Transfer, i: nat): (r: Option<(string, string)>)
    ensures r.Some? ==> Get(p, IndexedField("MediaUrl", i), "") != ""
    ensures Get(p, IndexedField("MediaUrl", i), "") != "" ==>
      r == Saved(cred, Get(p, IndexedField("MediaContentType", i), "application/octet-stream"), sid, i, transfers(i))
  {
    var url := Get(p, IndexedField("MediaUrl", i), "");
    var contentType := Get(p, IndexedField("MediaContentType", i), "application/octet-stream");
    if url == "" then None else Saved(cred, contentType, sid, i, transfers(i))
  }

  /** The outcome of every index below n, in index order. */
  function Attempts(cred: Credentials, p: seq<Field>, sid: string, transfers: nat -> Transfer, n: nat): (r: seq<Option<(string, string)>>)
    ensures |r| == n
    ensures forall i :: 0 <= i < n ==> r[i] == SavedAt(cred, p, sid, transfers, i)
  {
    seq(n, i requires 0 <= i < n => SavedAt(cred, p, sid, transfers, i))
  }

  /** An outcome: the key and data saved, or None. */
  type Attempt = Option<(string, string)>

  /** The indices of the saved attachments, ascending. */
  function SavedIndices(outs: seq<Attempt>): seq<nat> {
    if outs == [] then []
    else
      var n := |outs| - 1;
      SavedIndices(outs[..n]) + (if outs[n].Some? then [n] else [])
  }

  /** The keys the loop collects, in index order. */
  function KeysOf(outs: seq<Attempt>): seq<string> {
    if outs == [] then []
    else
      var n := |outs| - 1;
      KeysOf(outs[..n]) + (if outs[n].Some? then [outs[n].value.0] else [])
  }

  /** The objects after the loop has saved the attachments. */
  function ObjectsAfter(objects: map<string, string>, outs: seq<Attempt>): map<string, string> {
    if outs == [] then objects
    else
      var n := |outs| - 1;
      var before := ObjectsAfter(objects, outs[..n]);
      if outs[n].Some? then before[outs[n].value.0 := outs[n].value.1] else before
  }

  /** One key per saved index, each the key of that index's attachment. */
  lemma {:induction false} KeysOfSaved(outs: seq<Attempt>)
    ensures var ix, keys := SavedIndices(outs), KeysOf(outs);
      |keys| == |ix| &&
      forall j :: 0 <= j < |ix| ==> ix[j] < |outs| && outs[ix[j]].Some? && keys[j] == outs[ix[j]].value.0
  {
    if outs != [] {
      var n := |outs| - 1;
      KeysOfSaved(outs[..n]);
    }
  }

  /** The saved indices ascend, and an index is among them exactly when its attachment
      was saved. */
  lemma {:induction false} SavedIndicesAscend(outs: seq<Attempt>)
    ensures var ix := SavedIndices(outs);
      (forall j, k :: 0 <= j < k < |ix| ==> ix[j] < ix[k]) &&
      (forall i :: 0 <= i < |outs| ==> (i in ix <==> outs[i].Some?)) &&
      (forall j :: 0 <= j < |ix| ==> ix[j] < |outs|)
  {
    if outs != [] {
      var n := |outs| - 1;
      var init := outs[..n];
      var prev := SavedIndices(init);
      var last: seq<nat> := if outs[n].Some? then [n] else [];
      SavedIndicesAscend(init);
      var ix := prev + last;
      assert SavedIndices(outs) == ix;
      assert forall j :: 0 <= j < |ix| ==> ix[j] < |outs| by {
        assert forall j :: 0 <= j < |prev| ==> ix[j] == prev[j];
      }
      forall i | 0 <= i < |outs| ensures i in ix <==> outs[i].Some? {
        if i < n {
          assert init[i] == outs[i];
          assert i !in last;
        }
      }
    }
  }

  /** When no attachment is saved, no key is listed and no object is written. */
  lemma {:induction false} NothingSavedNothingWritten(objects: map<string, string>, outs: seq<Attempt>)
    requires forall i :: 0 <= i < |outs| ==> outs[i] == None
    ensures KeysOf(outs) == []
    ensures ObjectsAfter(objects, outs) == objects
  {
    if outs != [] {
      NothingSavedNothingWritten(objects, outs[..|outs| - 1]);
    }
  }

  /** Every attempt fails without credentials. */
  lemma NoCredentialsNoAttempt(cred: Credentials, p: seq<Field>, sid: string, transfers: nat -> Transfer, n: nat)
    requires cred.accountSid == "" || cred.authToken == ""
    ensures forall i :: 0 <= i < n ==> Attempts(cred, p, sid, transfers, n)[i] == None
  {
  }

  /** Only the keys of saved attachments are written: every other key keeps its object. */
  lemma {:induction false} ObjectsAfterElsewhere(objects: map<string, string>, outs: seq<Attempt>, key: string)
    requires forall i :: 0 <= i < |outs| && outs[i].Some? ==> outs[i].value.0 != key
    ensures var after := ObjectsAfter(objects, outs);
      (key in after <==> key in objects) && (key in after ==> after[key] == objects[key])
  {
    if outs != [] {
      ObjectsAfterElsewhere(objects, outs[..|outs| - 1], key);
    }
  }

  /** The attachments are written only under media keys. */
  lemma AttemptsAreMedia(cred: Credentials, p: seq<Field>, sid: string, transfers: nat -> Transfer, n: nat)
    ensures var outs := Attempts(cred, p, sid, transfers, n);
      forall i :: 0 <= i < n && outs[i].Some? ==> exists ext :: outs[i].value.0 == MediaKey(sid, i, ext)
  {
  }

  /** Saving the attachments leaves the sender's log untouched. */
  lemma MediaKeepsLog(objects: map<string, string>, cred: Credentials, p: seq<Field>, sid: string, transfers: nat -> Transfer, n: nat, phone: string)
    ensures var after := ObjectsAfter(objects, Attempts(cred, p, sid, transfers, n));
      var key := Identity.LogKey(phone);
      (key in after <==> key in objects) && (key in after ==> after[key] == objects[key])
  {
    var outs := Attempts(cred, p, sid, transfers, n);
    forall i | 0 <= i < |outs| && outs[i].Some? ensures outs[i].value.0 != Identity.LogKey(phone) {
      var contentType := Get(p, IndexedField("MediaContentType", i), "application/octet-stream");
      MediaKeyIsNotLogKey(sid, i, Extension(contentType), phone);
    }
    ObjectsAfterElsewhere(objects, outs, Identity.LogKey(phone));
  }

  /** The media loop of the handler: for i in 0 .. numMedia - 1, download `MediaUrl<i>` when
      it is present and keep the key of each attachment saved. */
  method CollectMedia(store: Store, cred: Credentials, p: seq<Field>, sid: string, numMedia: int, transfers: nat -> Transfer)
    returns (keys: seq<string>)
    modifies store
    ensures var outs := Attempts(cred, p, sid, transfers, if numMedia < 0 then 0 else numMedia);
      keys == KeysOf(outs) && store.objects == ObjectsAfter(old(store.objects), outs)
  {
    var n: nat := if numMedia < 0 then 0 else numMedia;
    ghost var outs := Attempts(cred, p, sid, transfers, n);
    keys := [];
    var i := 0;
    while i < n
      invariant 0 <= i <= n
      invariant keys == KeysOf(outs[..i])
      invariant store.objects == ObjectsAfter(old(store.objects), outs[..i])
    {
      assert outs[..i + 1][..i] == outs[..i];
      var url := Get(p, IndexedField("MediaUrl", i), "");
      var contentType := Get(p, IndexedField("MediaContentType", i), "application/octet-stream");
      if url != "" {
        var key := DownloadAndSave(store, cred, contentType, sid, i, transfers(i));
        if key.Some? {
          keys := keys + [key.value];
        }
      }
      i := i + 1;
    }
    assert outs[..i] == outs;
  }
}
