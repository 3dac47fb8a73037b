/**
 The pull response: a replica node answers a request for missing messages with one text
 in which entries, fields and data items are separated by three different delimiters.
 */
module Codec {
  import opened Wrappers
  import opened U64
  import opened Seqs
  import opened Framing
  import opened Decimal
  import opened Entries

  const FIELD_DELIMITER: string := "_@_"
  const ENTRY_DELIMITER: string := "@@@"
  const DATA_DELIMITER: string := "$$"

  function Fields(e: Entry): seq<string> {
    [Join(e.data, DATA_DELIMITER), Print(e.lamportClock), Print(e.outgoingTimestamp),
     Print(e.incomingTimestamp), e.messageId, e.sender]
  }

  function EntryText(e: Entry): string {
    Join(Fields(e), FIELD_DELIMITER)
  }

  /** The response text for a list of entries. */
  function Marshalled(es: seq<Entry>): string {
    Join(Map(EntryText, es), ENTRY_DELIMITER)
  }

  /** One entry of a response, or nothing if it is malformed. */
  function ParseEntry(text: string): Option<Entry> {
    var fields := Split(text, FIELD_DELIMITER);
    if |fields| < 6 then None
    else match ParsePeer(fields[5])
      case None => None
      case Some(peer) =>
        Some(Entry(Split(fields[0], DATA_DELIMITER), ParseOrZero(fields[1]), ParseOrZero(fields[2]),
                   ParseOrZero(fields[3]), fields[4], peer, None))
  }

  function ParsedEntry(text: string): seq<Entry> {
    match ParseEntry(text) case None => [] case Some(e) => [e]
  }

  function ParsedBlob(blob: string): seq<Entry> {
    FlatMap(ParsedEntry, Split(blob, ENTRY_DELIMITER))
  }

  /** All entries of the blobs of a response. */
  function Unmarshalled(blobs: seq<string>): seq<Entry> {
    FlatMap(ParsedBlob, blobs)
  }

  function WithoutCount(e: Entry): Entry {
    e.(confirmations := None)
  }

  function Unconfirmed(es: seq<Entry>): seq<Entry> {
    Map(WithoutCount, es)
  }

  /** The payload and the id of an entry do not collide with the delimiters around them. */
  predicate Clean(e: Entry) {
    var payload := Join(e.data, DATA_DELIMITER);
    && Separable(e.data, DATA_DELIMITER)
    && Closed(payload, FIELD_DELIMITER) && !Contains(payload, ENTRY_DELIMITER)
    && Closed(e.messageId, FIELD_DELIMITER) && !Contains(e.messageId, ENTRY_DELIMITER)
  }

  // ---- The loops -----------------------------------------------------------------

  lemma {:induction false} JoinAppend(parts: seq<string>, p: string, d: string)
    ensures Join(parts + [p], d) == if parts == [] then p else Join(parts, d) + d + p
  {
    if parts != [] {
      JoinAppend(parts[1..], p, d);
      assert (parts + [p])[1..] == parts[1..] + [p];
      if |parts| > 1 {
        assert parts[0] + d + (Join(parts[1..], d) + d + p) == parts[0] + d + Join(parts[1..], d) + d + p;
      }
    }
  }

  lemma TextNotEmpty(e: Entry)
    ensures EntryText(e) != ""
  {
  }

  lemma MarshalledStep(es: seq<Entry>, i: nat)
    requires i < |es|
    ensures Marshalled(es[..i + 1]) ==
      if i == 0 then EntryText(es[i]) else Marshalled(es[..i]) + ENTRY_DELIMITER + EntryText(es[i])
    ensures EntryText(es[i]) != ""
  {
    MapStep(EntryText, es, i);
    JoinAppend(Map(EntryText, es[..i]), EntryText(es[i]), ENTRY_DELIMITER);
    TextNotEmpty(es[i]);
  }

  /** A delimiter is written before an entry exactly when something was written already. */
  method MarshalEntries(es: seq<Entry>) returns (result: string)
    ensures result == Marshalled(es)
  {
    result := "";
    for i := 0 to |es|
      invariant result == Marshalled(es[..i])
      invariant result == "" <==> i == 0
    {
      var entry := Join(es[i].data, DATA_DELIMITER);
      entry := entry + FIELD_DELIMITER + Print(es[i].lamportClock);
      entry := entry + FIELD_DELIMITER + Print(es[i].outgoingTimestamp);
      entry := entry + FIELD_DELIMITER + Print(es[i].incomingTimestamp);
      entry := entry + FIELD_DELIMITER + es[i].messageId;
      entry := entry + FIELD_DELIMITER + es[i].sender;
      EntryTextFlat(es[i]);
      assert entry == EntryText(es[i]);
      MarshalledStep(es, i);
      if result != "" {
        result := result + ENTRY_DELIMITER;
      }
      result := result + entry;
    }
    assert es[..|es|] == es;
  }

  lemma EntryTextFlat(e: Entry)
    ensures EntryText(e) ==
      Join(e.data, DATA_DELIMITER) + FIELD_DELIMITER + Print(e.lamportClock) + FIELD_DELIMITER
      + Print(e.outgoingTimestamp) + FIELD_DELIMITER + Print(e.incomingTimestamp) + FIELD_DELIMITER
      + e.messageId + FIELD_DELIMITER + e.sender
  {
    var d := FIELD_DELIMITER;
    var f := Fields(e);
    JoinAppend(f[..5], f[5], d);
    JoinAppend(f[..4], f[4], d);
    JoinAppend(f[..3], f[3], d);
    JoinAppend(f[..2], f[2], d);
    JoinAppend(f[..1], f[1], d);
    assert f == f[..5] + [f[5]] && f[..5] == f[..4] + [f[4]] && f[..4] == f[..3] + [f[3]];
    assert f[..3] == f[..2] + [f[2]] && f[..2] == f[..1] + [f[1]];
  }

  method UnmarshalMessages(blobs: seq<string>) returns (result: seq<Entry>)
    ensures result == Unmarshalled(blobs)
  {
    result := [];
    for i := 0 to |blobs|
      invariant result == Unmarshalled(blobs[..i])
    {
      var texts := Split(blobs[i], ENTRY_DELIMITER);
      ghost var before := result;
      for j := 0 to |texts|
        invariant result == before + FlatMap(ParsedEntry, texts[..j])
      {
        FlatMapStep(ParsedEntry, texts, j);
        var fields := Split(texts[j], FIELD_DELIMITER);
        if |fields| < 6 {
          continue;
        }
        var peer := ParsePeer(fields[5]);
        if peer.Some? {
          result := result + [Entry(Split(fields[0], DATA_DELIMITER), ParseOrZero(fields[1]), ParseOrZero(fields[2]),
                                    ParseOrZero(fields[3]), fields[4], peer.value, None)];
        }
      }
      assert texts[..|texts|] == texts;
      FlatMapStep(ParsedBlob, blobs, i);
    }
    assert blobs[..|blobs|] == blobs;
  }

  // ---- Clean entries survive -----------------------------------------------------

  /** The middle of a field delimiter cannot belong to an entry delimiter. */
  lemma StraddleFree(a: string, b: string)
    ensures Contains(a + FIELD_DELIMITER + b, ENTRY_DELIMITER) ==>
      Contains(a, ENTRY_DELIMITER) || Contains(b, ENTRY_DELIMITER)
  {
    var s := a + FIELD_DELIMITER + b;
    if Contains(s, ENTRY_DELIMITER) {
      var k := Find(s, ENTRY_DELIMITER).value;
      var w := s[k..k + 3];
      assert s[k] == w[0] && s[k + 1] == w[1] && s[k + 2] == w[2];
      assert s[|a|] == '_' && s[|a| + 2] == '_';
      if k + 3 <= |a| {
        assert a[k..k + 3] == s[k..k + 3];
        assert At(a, ENTRY_DELIMITER, k);
      } else {
        assert k != |a| && k + 1 != |a| && k + 2 != |a| && k != |a| + 1 && k != |a| + 2;
        var m := k - |a| - 3;
        assert b[m..m + 3] == s[k..k + 3];
        assert At(b, ENTRY_DELIMITER, m);
      }
    }
  }

  /** An entry delimiter cannot straddle a field delimiter. */
  lemma EntryDelimiterStaysInField(a: string, b: string)
    ensures Contains(a + FIELD_DELIMITER + b, ENTRY_DELIMITER) <==>
      Contains(a, ENTRY_DELIMITER) || Contains(b, ENTRY_DELIMITER)
  {
    var s := a + FIELD_DELIMITER + b;
    StraddleFree(a, b);
    if Contains(a, ENTRY_DELIMITER) {
      ContainsInContext("", a, FIELD_DELIMITER + b, ENTRY_DELIMITER);
      assert "" + a + (FIELD_DELIMITER + b) == s;
    }
    if Contains(b, ENTRY_DELIMITER) {
      ContainsInContext(a + FIELD_DELIMITER, b, "", ENTRY_DELIMITER);
      assert a + FIELD_DELIMITER + b + "" == s;
    }
  }

  lemma {:induction false} EntryDelimiterInJoin(parts: seq<string>)
    requires forall p | p in parts :: !Contains(p, ENTRY_DELIMITER)
    ensures !Contains(Join(parts, FIELD_DELIMITER), ENTRY_DELIMITER)
  {
    if |parts| > 1 {
      EntryDelimiterInJoin(parts[1..]);
      EntryDelimiterStaysInField(parts[0], Join(parts[1..], FIELD_DELIMITER));
    }
  }

  /** A text that ends in a character foreign to the delimiter is closed. */
  lemma ForeignEndIsClosed(s: string, d: string)
    requires d != "" && s != "" && s[|s| - 1] !in d && !Contains(s, d)
    ensures Closed(s, d)
  {
    var t := s + d;
    assert t[|s|..|s| + |d|] == d;
    forall j: nat | j < |s| ensures !At(t, d, j) {
      if j + |d| <= |s| {
        assert t[j..j + |d|] == s[j..j + |d|];
        assert !At(s, d, j);
      } else if j + |d| <= |t| {
        assert t[j..j + |d|][|s| - 1 - j] == s[|s| - 1];
      }
    }
    FindUnique(t, d, |s|);
  }

  lemma PlainTexts(e: Entry)
    ensures forall i | 1 <= i < 6 && i != 4 ::
      '_' !in Fields(e)[i] && '@' !in Fields(e)[i] && Closed(Fields(e)[i], FIELD_DELIMITER)
      && !Contains(Fields(e)[i], FIELD_DELIMITER) && !Contains(Fields(e)[i], ENTRY_DELIMITER)
  {
    forall i | 1 <= i < 6 && i != 4
      ensures '_' !in Fields(e)[i] && '@' !in Fields(e)[i] && Closed(Fields(e)[i], FIELD_DELIMITER)
        && !Contains(Fields(e)[i], FIELD_DELIMITER) && !Contains(Fields(e)[i], ENTRY_DELIMITER)
    {
      var f := Fields(e)[i];
      assert i < 4 ==> AllDigits(f);
      assert i == 5 ==> IsPeerText(f);
      PlainIsClosed(f, FIELD_DELIMITER);
      PlainIsClosed(f, ENTRY_DELIMITER);
    }
  }

  /** A clean entry is read back from its own text. */
  lemma CleanEntryParses(e: Entry)
    requires Clean(e)
    ensures ParseEntry(EntryText(e)) == Some(e.(confirmations := None))
  {
    var f := Fields(e);
    PlainTexts(e);
    assert Separable(f, FIELD_DELIMITER);
    SplitOfJoin(f, FIELD_DELIMITER);
    SplitOfJoin(e.data, DATA_DELIMITER);
    ParseOfPrint(e.lamportClock, MAX);
    ParseOfPrint(e.outgoingTimestamp, MAX);
    ParseOfPrint(e.incomingTimestamp, MAX);
  }

  /** The text of a clean entry does not collide with the entry delimiter. */
  lemma CleanEntryText(e: Entry)
    requires Clean(e)
    ensures Closed(EntryText(e), ENTRY_DELIMITER) && !Contains(EntryText(e), ENTRY_DELIMITER)
  {
    var f := Fields(e);
    PlainTexts(e);
    assert forall p | p in f :: !Contains(p, ENTRY_DELIMITER);
    EntryDelimiterInJoin(f);
    EntryTextFlat(e);
    var s := EntryText(e);
    assert s[|s| - 1] == e.sender[|e.sender| - 1];
    assert IsBase58(s[|s| - 1]);
    ForeignEndIsClosed(s, ENTRY_DELIMITER);
  }

  lemma {:induction false} CleanTexts(es: seq<Entry>)
    requires forall e | e in es :: Clean(e)
    ensures FlatMap(ParsedEntry, Map(EntryText, es)) == Unconfirmed(es)
    ensures es != [] ==> Separable(Map(EntryText, es), ENTRY_DELIMITER)
  {
    if es != [] {
      CleanEntryParses(es[0]);
      CleanEntryText(es[0]);
      CleanTexts(es[1..]);
      if |es| > 1 {
        SeparableCons(EntryText(es[0]), Map(EntryText, es[1..]), ENTRY_DELIMITER);
      }
    }
  }

  // ---- Only clean entries can be read --------------------------------------------

  lemma {:induction false} SplitPartIn(s: string, d: string, i: nat, x: string)
    requires d != "" && x != "" && i < |Split(s, d)| && Contains(Split(s, d)[i], x)
    ensures Contains(s, x)
    decreases |s|
  {
    match Find(s, d)
    case None =>
    case Some(k) =>
      var rest := s[k + |d|..];
      if i == 0 {
        ContainsInContext("", s[..k], s[k..], x);
        assert "" + s[..k] + s[k..] == s;
      } else {
        SplitPartIn(rest, d, i - 1, x);
        ContainsInContext(s[..k + |d|], rest, "", x);
        assert s[..k + |d|] + rest + "" == s;
      }
  }

  /** Whatever text was received, an entry read from a piece of it is clean. */
  lemma ParsedIsClean(text: string)
    requires !Contains(text, ENTRY_DELIMITER)
    requires ParseEntry(text).Some?
    ensures Clean(ParseEntry(text).value) && ParseEntry(text).value.confirmations == None
  {
    var e := ParseEntry(text).value;
    var f := Split(text, FIELD_DELIMITER);
    SplitIsSeparable(text, FIELD_DELIMITER);
    assert Closed(f[0], FIELD_DELIMITER) && Closed(f[4], FIELD_DELIMITER);
    JoinOfSplit(f[0], DATA_DELIMITER);
    SplitIsSeparable(f[0], DATA_DELIMITER);
    if Contains(f[0], ENTRY_DELIMITER) {
      SplitPartIn(text, FIELD_DELIMITER, 0, ENTRY_DELIMITER);
    }
    if Contains(f[4], ENTRY_DELIMITER) {
      SplitPartIn(text, FIELD_DELIMITER, 4, ENTRY_DELIMITER);
    }
  }

  lemma UnmarshalledClean(blobs: seq<string>)
    ensures forall e | e in Unmarshalled(blobs) :: Clean(e) && e.confirmations == None
  {
    forall e | e in Unmarshalled(blobs) ensures Clean(e) && e.confirmations == None {
      FlatMapIn(ParsedBlob, blobs, e);
      var blob :| blob in blobs && e in ParsedBlob(blob);
      var texts := Split(blob, ENTRY_DELIMITER);
      FlatMapIn(ParsedEntry, texts, e);
      var i :| 0 <= i < |texts| && e in ParsedEntry(texts[i]);
      PieceIsClean(blob, i);
    }
  }

  lemma PieceIsClean(blob: string, i: nat)
    requires i < |Split(blob, ENTRY_DELIMITER)|
    ensures forall e | e in ParsedEntry(Split(blob, ENTRY_DELIMITER)[i]) :: Clean(e) && e.confirmations == None
  {
    var texts := Split(blob, ENTRY_DELIMITER);
    SplitIsSeparable(blob, ENTRY_DELIMITER);
    if i < |texts| - 1 {
      ClosedContainsNone(texts[i], ENTRY_DELIMITER);
    }
    if ParseEntry(texts[i]).Some? {
      ParsedIsClean(texts[i]);
    }
  }

  // ---- The round trip ------------------------------------------------------------

  lemma NothingFromEmpty()
    ensures ParsedBlob("") == []
  {
    assert Split("", ENTRY_DELIMITER) == [""];
    assert Split("", FIELD_DELIMITER) == [""];
    assert [""][1..] == [];
  }

  lemma UnconfirmedSame(es: seq<Entry>)
    requires forall e | e in es :: e.confirmations == None
    ensures Unconfirmed(es) == es
  {
  }

  lemma OneBlob(blob: string)
    ensures Unmarshalled([blob]) == ParsedBlob(blob)
  {
    FlatMapStep(ParsedBlob, [blob], 0);
    assert [blob][..1] == [blob] && [blob][..0] == [];
  }

  lemma CleanRoundTrip(es: seq<Entry>)
    requires forall e | e in es :: Clean(e)
    ensures Unmarshalled([Marshalled(es)]) == Unconfirmed(es)
  {
    OneBlob(Marshalled(es));
    if es == [] {
      NothingFromEmpty();
    } else {
      CleanTexts(es);
      CleanBlob(es);
    }
  }

  lemma CleanBlob(es: seq<Entry>)
    requires Separable(Map(EntryText, es), ENTRY_DELIMITER)
    ensures ParsedBlob(Marshalled(es)) == FlatMap(ParsedEntry, Map(EntryText, es))
  {
    SplitOfJoin(Map(EntryText, es), ENTRY_DELIMITER);
  }

  /** A response is read back as the entries it was built from, in order and without their
      confirmation counts, exactly when every entry is clean. */
  lemma RoundTrip(es: seq<Entry>)
    ensures Unmarshalled([Marshalled(es)]) == Unconfirmed(es) <==> forall e | e in es :: Clean(e)
  {
    var out := Unmarshalled([Marshalled(es)]);
    UnmarshalledClean([Marshalled(es)]);
    if out == Unconfirmed(es) {
      forall e | e in es ensures Clean(e) {
        var i :| 0 <= i < |es| && es[i] == e;
        assert out[i] == WithoutCount(e) && out[i] in out;
      }
    } else if forall e | e in es :: Clean(e) {
      CleanRoundTrip(es);
    }
  }

  /** Entries that were pulled can be served to the next node without any change. */
  lemma RelayIsFaithful(blobs: seq<string>)
    ensures var es := Unmarshalled(blobs); Unmarshalled([Marshalled(es)]) == es
  {
    var es := Unmarshalled(blobs);
    UnmarshalledClean(blobs);
    RoundTrip(es);
    UnconfirmedSame(es);
  }

  /** A data item that ends in half a delimiter is cut at the wrong place. */
  lemma HalfDelimiterIsLost(e: Entry)
    requires e.data == ["a$", "b"]
    ensures Unmarshalled([Marshalled([e])]) != Unconfirmed([e])
  {
    var s := "a$" + DATA_DELIMITER;
    assert s[1..3] == "$$" && s[0..2] == "a$";
    FindUnique(s, DATA_DELIMITER, 1);
    assert !Closed(e.data[0], DATA_DELIMITER);
    RoundTrip([e]);
    assert e in [e];
  }

  /** A message without any data item does not survive a pull either. */
  lemma EmptyDataIsLost(e: Entry)
    requires e.data == []
    ensures Unmarshalled([Marshalled([e])]) != Unconfirmed([e])
  {
    RoundTrip([e]);
    assert e in [e];
  }

  // ---- What is skipped -----------------------------------------------------------

  /** Pieces with fewer than six fields, or with a sixth field that names no peer, are skipped;
      numbers that cannot be read become zero. */
  lemma MalformedIsSkipped(text: string)
    ensures var fields := Split(text, "_@_");
      |fields| < 6 || !IsPeerText(fields[5]) ==> ParsedEntry(text) == []
    ensures var fields := Split(text, "_@_");
      |fields| >= 6 && IsPeerText(fields[5]) ==>
        && |ParsedEntry(text)| == 1
        && var e := ParsedEntry(text)[0];
           && e.messageId == fields[4] && e.sender == fields[5] && e.confirmations == None
           && e.data == Split(fields[0], "$$")
           && (NoNumber(fields[1]) ==> e.lamportClock == 0)
           && (NoNumber(fields[2]) ==> e.outgoingTimestamp == 0)
           && (NoNumber(fields[3]) ==> e.incomingTimestamp == 0)
  {
    var fields := Split(text, "_@_");
    if |fields| >= 6 {
      NoNumberIsZero(fields[1]);
      NoNumberIsZero(fields[2]);
      NoNumberIsZero(fields[3]);
    }
  }

  /** The text of an entry, character for character. */
  lemma EntryOnTheWire(e: Entry, item: string)
    requires e.data == [item]
    ensures EntryText(e) ==
      item + "_@_" + Print(e.lamportClock) + "_@_" + Print(e.outgoingTimestamp) + "_@_" + Print(e.incomingTimestamp)
      + "_@_" + e.messageId + "_@_" + e.sender
  {
    EntryTextFlat(e);
    assert Join(e.data, DATA_DELIMITER) == item;
  }

  lemma EntriesOnTheWire(e: Entry, f: Entry)
    ensures Marshalled([e, f]) == EntryText(e) + "@@@" + EntryText(f)
    ensures Join(["a", "b"], DATA_DELIMITER) == "a$$b"
  {
    MarshalledStep([e, f], 1);
    MarshalledStep([e, f], 0);
    assert [e, f][..2] == [e, f] && [e, f][..1] == [e] && [e][..1] == [e];
    assert Map(EntryText, [e]) == [EntryText(e)];
  }
}
