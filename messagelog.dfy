/** The per-sender conversation log: one tab-separated line per message, appended to the
    text already stored. */
module MessageLog {
  import opened Text

  /** The eight fields of a log line, in the order they are written. */
  datatype Entry = Entry(
    timestamp: string,
    messageSid: string,
    toNumber: string,
    location: string,
    actions: string,
    numMedia: string,
    mediaKeys: string,
    text: string)

  function Fields(e: Entry): (r: seq<string>)
    ensures |r| == 8 && r[0] == e.timestamp && r[7] == e.text
  {
    [e.timestamp, e.messageSid, e.toNumber, e.location, e.actions, e.numMedia, e.mediaKeys, e.text]
  }

  /** The entry's line, without its newline. */
  function Line(e: Entry): string {
    Join(Fields(e), '\t')
  }

  /** The text appended to the log for one message: the line and a newline. */
  function Render(e: Entry): (r: string)
    ensures LineTerminated(r) && |r| >= 8
  {
    var line := Line(e);
    JoinLength(Fields(e), '\t');
    line + "\n"
  }

  /** A field value that holds no tab and no newline. */
  predicate NoBreak(s: string) {
    '\t' !in s && '\n' !in s
  }

  /** No field contains a tab or a newline. */
  predicate Clean(e: Entry) {
    NoBreak(e.timestamp) && NoBreak(e.messageSid) && NoBreak(e.toNumber) && NoBreak(e.location)
    && NoBreak(e.actions) && NoBreak(e.numMedia) && NoBreak(e.mediaKeys) && NoBreak(e.text)
  }

  /** Joining n parts inserts n - 1 separators. */
  lemma {:induction false} JoinLength(parts: seq<string>, sep: char)
    requires |parts| >= 1
    ensures |Join(parts, sep)| >= |parts| - 1
    decreases |parts|
  {
    if |parts| > 1 {
      JoinLength(parts[1..], sep);
    }
  }

  /** A joined text holds the separator only where the join put it. */
  lemma {:induction false} JoinAvoids(parts: seq<string>, sep: char, c: char)
    requires c != sep
    requires forall k :: 0 <= k < |parts| ==> c !in parts[k]
    ensures c !in Join(parts, sep)
    decreases |parts|
  {
    if |parts| > 1 {
      JoinAvoids(parts[1..], sep, c);
    }
  }

  /** A clean entry is one line of the log, and splitting it at tabs gives back its eight
      fields. */
  lemma EntryRoundTrip(e: Entry)
    requires Clean(e)
    ensures Lines(Render(e)) == [Line(e)]
    ensures Split(Line(e), '\t') == Fields(e)
  {
    JoinAvoids(Fields(e), '\t', '\n');
    LinesOfLine(Line(e));
    SplitJoin(Fields(e), '\t');
  }

  /** The actions field of a clean entry holding comma-free actions joined by commas reads
      back as those actions: the fifth tab-separated field of the line, split at commas. */
  lemma ActionsFieldRoundTrip(e: Entry, actions: seq<string>)
    requires Clean(e) && actions != []
    requires forall k :: 0 <= k < |actions| ==> ',' !in actions[k]
    requires e.actions == Join(actions, ',')
    ensures var fields := Split(Line(e), '\t');
      |fields| == 8 && Split(fields[4], ',') == actions
  {
    EntryRoundTrip(e);
    assert Fields(e)[4] == e.actions;
    SplitJoin(actions, ',');
  }

  /** The non-empty values among parts, in order (`filter(None, parts)`). */
  function NonEmpty(parts: seq<string>): (r: seq<string>)
    ensures |r| <= |parts|
    ensures forall k :: 0 <= k < |r| ==> r[k] != "" && r[k] in parts
  {
    if parts == [] then []
    else (if parts[0] != "" then [parts[0]] else []) + NonEmpty(parts[1..])
  }

  /** Every non-empty value is kept. */
  lemma {:induction false} NonEmptyKeeps(parts: seq<string>, k: nat)
    requires k < |parts| && parts[k] != ""
    ensures parts[k] in NonEmpty(parts)
  {
    if k > 0 {
      NonEmptyKeeps(parts[1..], k - 1);
    }
  }

  /** Filtering a + b keeps the values kept from a, then those kept from b. */
  lemma {:induction false} NonEmptyAppend(a: seq<string>, b: seq<string>)
    ensures NonEmpty(a + b) == NonEmpty(a) + NonEmpty(b)
    decreases |a|
  {
    if a != [] {
      assert (a + b)[1..] == a[1..] + b;
      NonEmptyAppend(a[1..], b);
    } else {
      assert a + b == b;
    }
  }

  /** The values kept from city, state and country: each one that is not empty, in that
      order. */
  lemma LocationValues(city: string, state: string, country: string)
    ensures NonEmpty([city, state, country]) ==
      (if city != "" then [city] else []) + (if state != "" then [state] else []) +
      (if country != "" then [country] else [])
  {
    assert [city, state, country] == [city] + [state] + [country];
    NonEmptyAppend([city] + [state], [country]);
    NonEmptyAppend([city], [state]);
    assert [city][1..] == [] && [state][1..] == [] && [country][1..] == [];
  }

  /** The sender's location: the non-empty values of city, state and country joined by
      commas. */
  function Location(city: string, state: string, country: string): string {
    Join(NonEmpty([city, state, country]), ',')
  }

  /** The location names exactly the known geographic values: split at commas it gives
      them back, and it is empty only when all three are. */
  lemma LocationParts(city: string, state: string, country: string)
    requires ',' !in city && ',' !in state && ',' !in country
    ensures var parts := NonEmpty([city, state, country]);
      (Location(city, state, country) == "" <==> city == "" && state == "" && country == "") &&
      (parts != [] ==> Split(Location(city, state, country), ',') == parts)
  {
    var parts := NonEmpty([city, state, country]);
    if parts != [] {
      SplitJoin(parts, ',');
      JoinLength(parts, ',');
      JoinNonEmpty(parts, ',');
    }
    if city != "" {
      NonEmptyKeeps([city, state, country], 0);
    }
    if state != "" {
      NonEmptyKeeps([city, state, country], 1);
    }
    if country != "" {
      NonEmptyKeeps([city, state, country], 2);
    }
  }

  /** Joining non-empty parts gives a non-empty text. */
  lemma JoinNonEmpty(parts: seq<string>, sep: char)
    requires parts != [] && parts[0] != ""
    ensures Join(parts, sep) != ""
  {
    if |parts| > 1 {
      assert Join(parts, sep)[0] == parts[0][0];
    }
  }

  /** The log after a message: the text that was read followed by the entry. */
  function Appended(existing: string, e: Entry): (r: string)
    ensures existing <= r && |r| > |existing|
  {
    existing + Render(e)
  }

  /** Appending to a line-terminated log keeps every earlier line and adds the entry's line
      as the last one. */
  lemma AppendAddsOneLine(existing: string, e: Entry)
    requires LineTerminated(existing) && Clean(e)
    ensures LineTerminated(Appended(existing, e))
    ensures Lines(Appended(existing, e)) == Lines(existing) + [Line(e)]
  {
    JoinAvoids(Fields(e), '\t', '\n');
    LinesAppend(existing, Line(e));
    assert existing + Line(e) + "\n" == existing + Render(e);
  }

  /** The log written for a sequence of messages, oldest first, starting from nothing. */
  function LogOf(entries: seq<Entry>): (r: string)
    ensures LineTerminated(r)
  {
    if entries == [] then "" else Appended(LogOf(entries[..|entries| - 1]), entries[|entries| - 1])
  }

  /** The lines of the given messages, oldest first. */
  function LinesOf(entries: seq<Entry>): (r: seq<string>)
    ensures |r| == |entries|
  {
    if entries == [] then [] else LinesOf(entries[..|entries| - 1]) + [Line(entries[|entries| - 1])]
  }

  /** The k-th of those lines belongs to the k-th message. */
  lemma {:induction false} LinesOfAt(entries: seq<Entry>, k: nat)
    requires k < |entries|
    ensures LinesOf(entries)[k] == Line(entries[k])
  {
    var n := |entries| - 1;
    if k < n {
      LinesOfAt(entries[..n], k);
    }
  }

  /** Every message of an unbroken history has its own line, in arrival order. */
  lemma {:induction false} LogOfLines(entries: seq<Entry>)
    requires forall k :: 0 <= k < |entries| ==> Clean(entries[k])
    ensures Lines(LogOf(entries)) == LinesOf(entries)
  {
    if entries != [] {
      var n := |entries| - 1;
      var init := entries[..n];
      forall k | 0 <= k < n ensures Clean(init[k]) {
        assert init[k] == entries[k];
      }
      LogOfLines(init);
      AppendAddsOneLine(LogOf(init), entries[n]);
    }
  }

  /** Every line of such a log splits at tabs into the eight fields of its message. */
  lemma LogLinesSplit(entries: seq<Entry>)
    requires forall k :: 0 <= k < |entries| ==> Clean(entries[k])
    ensures var lines := Lines(LogOf(entries));
      |lines| == |entries| &&
      forall k :: 0 <= k < |lines| ==> Split(lines[k], '\t') == Fields(entries[k])
  {
    LogOfLines(entries);
    forall k | 0 <= k < |entries| ensures Split(Lines(LogOf(entries))[k], '\t') == Fields(entries[k]) {
      LinesOfAt(entries, k);
      EntryRoundTrip(entries[k]);
    }
  }
}
