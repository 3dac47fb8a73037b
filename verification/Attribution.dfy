/**
 Whose message an entry is. A pulled text is split at delimiters that a payload may contain
 itself, so a payload can make a reader see entries of other senders. This module gives the
 exact condition on a payload under which that cannot happen.
 */
module Attribution {
  import opened Wrappers
  import opened Seqs
  import opened Framing
  import opened Decimal
  import opened Entries
  import opened Codec
  import opened AntiEntropy
  import Gossip

  // ---- The fields of a served entry --------------------------------------------------

  /** A payload followed by the other five fields of an entry. */
  function TextOf(payload: string, header: seq<string>): string {
    payload + FIELD_DELIMITER + Join(header, FIELD_DELIMITER)
  }

  /** Clocks, times, ids and peers have no character of a delimiter, and only the last of them
      reads as a peer. */
  predicate IsHeader(header: seq<string>) {
    && |header| == 5
    && (forall h | h in header :: '_' !in h && '@' !in h)
    && (forall i | 0 <= i < 4 :: !IsPeerText(header[i]))
  }

  function HeaderOf(e: Entry): seq<string> {
    [Print(e.lamportClock), Print(e.outgoingTimestamp), Print(e.incomingTimestamp), e.messageId, e.sender]
  }

  lemma EntryTextOf(e: Entry)
    requires ValidMessageId(e.messageId)
    ensures IsHeader(HeaderOf(e)) && EntryText(e) == TextOf(Join(e.data, DATA_DELIMITER), HeaderOf(e))
  {
    U64Length(e.lamportClock);
    U64Length(e.outgoingTimestamp);
    U64Length(e.incomingTimestamp);
    assert Fields(e) == [Join(e.data, DATA_DELIMITER)] + HeaderOf(e);
    Gossip.JoinTakesFront(Join(e.data, DATA_DELIMITER), HeaderOf(e), FIELD_DELIMITER);
  }

  lemma {:induction false} PlainSplit(parts: seq<string>)
    requires parts != [] && forall p | p in parts :: '_' !in p
    ensures Split(Join(parts, FIELD_DELIMITER), FIELD_DELIMITER) == parts
  {
    forall p | p in parts ensures Closed(p, FIELD_DELIMITER) && !Contains(p, FIELD_DELIMITER) {
      PlainIsClosed(p, FIELD_DELIMITER);
    }
    SplitOfJoin(parts, FIELD_DELIMITER);
  }

  lemma FieldDelimiterAt(s: string, j: nat)
    ensures At(s, FIELD_DELIMITER, j) <==> j + 3 <= |s| && s[j] == '_' && s[j + 1] == '@' && s[j + 2] == '_'
  {
    if j + 3 <= |s| {
      assert s[j..j + 3] == [s[j], s[j + 1], s[j + 2]];
    }
  }

  lemma BeforeDelimiter(l: string, k: nat)
    requires k < |l| && At(l + FIELD_DELIMITER, FIELD_DELIMITER, k)
    ensures k + 2 == |l| || At(l, FIELD_DELIMITER, k)
  {
    var s := l + FIELD_DELIMITER;
    FieldDelimiterAt(s, k);
    FieldDelimiterAt(l, k);
    assert s[|l|] == '_';
  }

  lemma FoundBy(s: string, d: string, n: nat)
    requires d != "" && At(s, d, n)
    ensures Find(s, d).Some? && Find(s, d).value <= n && At(s, d, Find(s, d).value)
  {
  }

  lemma DelimiterBehind(l: string, d: string)
    ensures At(l + d, d, |l|)
  {
    assert (l + d)[|l|..|l| + |d|] == d;
  }

  /** A payload that ends in the first two characters of a field delimiter loses them, and the
      next field gets the rest of the delimiter. */
  lemma HalfDelimiter(l: string)
    requires !Contains(l, FIELD_DELIMITER) && !Closed(l, FIELD_DELIMITER)
    ensures |l| >= 2 && Find(l + FIELD_DELIMITER, FIELD_DELIMITER) == Some(|l| - 2)
  {
    var d := FIELD_DELIMITER;
    DelimiterBehind(l, d);
    FoundBy(l + d, d, |l|);
    var k := Find(l + d, d).value;
    assert Find(l + d, d) == Some(k) && k != |l|;
    BeforeDelimiter(l, k);
    assert !At(l, d, k);
  }

  lemma MarkedIsClosed(h: string)
    requires '_' !in h && '@' !in h
    ensures Closed("@_" + h, FIELD_DELIMITER)
  {
    var p := "@_" + h;
    var s := p + FIELD_DELIMITER;
    FieldDelimiterAt(s, |p|);
    forall j: nat | j < |p| ensures !At(s, FIELD_DELIMITER, j) {
      FieldDelimiterAt(s, j);
      assert s[0] == '@' && s[2] == if h == "" then '_' else h[0];
    }
    FindUnique(s, FIELD_DELIMITER, |p|);
  }

  /** The first field of a text whose payload contains no field delimiter. */
  function FirstField(l: string): string {
    if Closed(l, FIELD_DELIMITER) || |l| < 2 then l else l[..|l| - 2]
  }

  function SecondField(l: string, h: string): string {
    if Closed(l, FIELD_DELIMITER) then h else "@_" + h
  }

  lemma SixOfClosed(l: string, header: seq<string>)
    requires Closed(l, FIELD_DELIMITER) && IsHeader(header)
    ensures Split(TextOf(l, header), FIELD_DELIMITER) == [l, header[0]] + header[1..]
  {
    SplitFront(l, Join(header, FIELD_DELIMITER), FIELD_DELIMITER);
    PlainSplit(header);
    HeadAgain(l, header);
  }

  lemma HeadAgain(l: string, header: seq<string>)
    requires header != []
    ensures [l] + header == [l, header[0]] + header[1..]
  {
  }

  lemma SixOfCut(l: string, header: seq<string>)
    requires !Contains(l, FIELD_DELIMITER) && !Closed(l, FIELD_DELIMITER) && IsHeader(header)
    ensures |l| >= 2
    ensures Split(TextOf(l, header), FIELD_DELIMITER) == [l[..|l| - 2], "@_" + header[0]] + header[1..]
  {
    CutShort(l, Join(header, FIELD_DELIMITER));
    MarkedHeader(header);
    HeadAgain(l[..|l| - 2], ["@_" + header[0]] + header[1..]);
  }

  lemma SixFields(l: string, header: seq<string>)
    requires !Contains(l, FIELD_DELIMITER) && IsHeader(header)
    ensures Split(TextOf(l, header), FIELD_DELIMITER) == [FirstField(l), SecondField(l, header[0])] + header[1..]
  {
    if Closed(l, FIELD_DELIMITER) {
      SixOfClosed(l, header);
    } else {
      SixOfCut(l, header);
    }
  }

  lemma CutShort(l: string, rest: string)
    requires !Contains(l, FIELD_DELIMITER) && !Closed(l, FIELD_DELIMITER)
    ensures |l| >= 2
    ensures Split(l + FIELD_DELIMITER + rest, FIELD_DELIMITER) == [l[..|l| - 2]] + Split("@_" + rest, FIELD_DELIMITER)
  {
    HalfDelimiter(l);
    FindExtend(l + FIELD_DELIMITER, rest, FIELD_DELIMITER);
    SplitUnfold(l + FIELD_DELIMITER + rest, FIELD_DELIMITER, |l| - 2);
    CutPieces(l, rest);
  }

  lemma CutPieces(l: string, rest: string)
    requires |l| >= 2
    ensures (l + FIELD_DELIMITER + rest)[..|l| - 2] == l[..|l| - 2]
    ensures (l + FIELD_DELIMITER + rest)[|l| - 2 + |FIELD_DELIMITER|..] == "@_" + rest
  {
  }

  lemma MarkedHeader(header: seq<string>)
    requires IsHeader(header)
    ensures Split("@_" + Join(header, FIELD_DELIMITER), FIELD_DELIMITER) == ["@_" + header[0]] + header[1..]
  {
    var d := FIELD_DELIMITER;
    assert header == [header[0]] + header[1..];
    Gossip.JoinTakesFront(header[0], header[1..], d);
    assert "@_" + Join(header, d) == "@_" + header[0] + d + Join(header[1..], d);
    MarkedIsClosed(header[0]);
    SplitFront("@_" + header[0], Join(header[1..], d), d);
    PlainSplit(header[1..]);
  }

  // ---- Which payloads can forge an entry ---------------------------------------------

  lemma TextExtends(l: string, header: seq<string>)
    ensures TextOf(l, header) == l + (FIELD_DELIMITER + Join(header, FIELD_DELIMITER))
  {
  }

  /** The parts of a payload in front of its last one become fields of their own. */
  lemma AllFields(l: string, header: seq<string>)
    requires IsHeader(header)
    ensures var parts, end := Split(l, FIELD_DELIMITER), LastPart(l, FIELD_DELIMITER);
      Split(TextOf(l, header), FIELD_DELIMITER) ==
        parts[..|parts| - 1] + ([FirstField(end), SecondField(end, header[0])] + header[1..])
  {
    var end := LastPart(l, FIELD_DELIMITER);
    TextExtends(l, header);
    TextExtends(end, header);
    SplitExtend(l, FIELD_DELIMITER + Join(header, FIELD_DELIMITER), FIELD_DELIMITER);
    LastPartEnds(l, FIELD_DELIMITER);
    SixFields(end, header);
  }

  const ONES: seq<string> := ["1", "1", "1", "1", "1"]

  /** A piece that ends in the header of its entry is harmless if it has no sender of its own:
      with a header without a sender it does not read as an entry. */
  predicate Harmless(l: string) {
    ParseEntry(TextOf(l, ONES)).None?
  }

  /** No reader of an entry with this payload sees an entry of another sender. */
  predicate Attributable(payload: string) {
    var pieces := Split(payload, ENTRY_DELIMITER);
    && (forall i | 0 <= i < |pieces| - 1 :: ParseEntry(pieces[i]).None?)
    && Harmless(LastPart(payload, ENTRY_DELIMITER))
  }

  lemma OnlyPart(l: string, d: string)
    requires d != ""
    ensures |Split(l, d)| == 1 <==> !Contains(l, d)
    ensures |Split(l, d)| == 1 ==> LastPart(l, d) == l
  {
  }

  /** The sixth field of a piece, from which the sender is read. */
  lemma SixthField(l: string, header: seq<string>)
    requires IsHeader(header)
    ensures var f, end := Split(l, FIELD_DELIMITER), LastPart(l, FIELD_DELIMITER);
      var fields := Split(TextOf(l, header), FIELD_DELIMITER);
      && |fields| == |f| + 5
      && fields[5] ==
           (if |f| == 1 then header[4] else if |f| == 2 then header[3] else if |f| == 3 then header[2]
            else if |f| == 4 then header[1] else if |f| == 5 then SecondField(end, header[0])
            else if |f| == 6 then FirstField(end) else f[5])
      && (|f| == 1 ==> fields[4] == header[3])
  {
    AllFields(l, header);
  }

  lemma OnesAreHeader()
    ensures IsHeader(ONES) && !IsPeerText("1")
  {
    assert forall h | h in ONES :: h == "1";
  }

  /** The sixth field of a piece with at least six fields of its own. */
  function OwnSender(l: string): string {
    var f := Split(l, FIELD_DELIMITER);
    if |f| == 6 then FirstField(LastPart(l, FIELD_DELIMITER)) else if |f| > 6 then f[5] else ""
  }

  lemma MarkIsNoPeer(h: string)
    ensures !IsPeerText("@_" + h)
  {
    var s := "@_" + h;
    assert s[0] == '@' && s[0] in s;
  }

  /** A sender is read from the header if the piece is plain, else from the piece itself. */
  lemma SenderRead(l: string, header: seq<string>)
    requires IsHeader(header)
    ensures var fields := Split(TextOf(l, header), FIELD_DELIMITER);
      && |fields| >= 6
      && (!Contains(l, FIELD_DELIMITER) ==> fields[4] == header[3] && fields[5] == header[4])
      && (Contains(l, FIELD_DELIMITER) ==> (IsPeerText(fields[5]) <==> IsPeerText(OwnSender(l))))
      && (Contains(l, FIELD_DELIMITER) && IsPeerText(fields[5]) ==> fields[5] == OwnSender(l))
  {
    SixthField(l, header);
    OnlyPart(l, FIELD_DELIMITER);
    MarkIsNoPeer(header[0]);
  }

  lemma HarmlessMeans(l: string)
    ensures Harmless(l) <==> !Contains(l, FIELD_DELIMITER) || !IsPeerText(OwnSender(l))
  {
    OnesAreHeader();
    SenderRead(l, ONES);
  }

  /** Whatever is read from a harmless piece has the id and the sender of its header. */
  lemma HarmlessReads(l: string, header: seq<string>)
    requires IsHeader(header) && Harmless(l)
    ensures ParseEntry(TextOf(l, header)).Some? ==>
      var x := ParseEntry(TextOf(l, header)).value; x.messageId == header[3] && x.sender == header[4]
  {
    HarmlessMeans(l);
    SenderRead(l, header);
  }

  /** A piece that is not harmless can be read with a sender that does not depend on the
      sender in its header. */
  lemma HarmfulReads(l: string, sender: PeerId)
    requires !Harmless(l)
    ensures IsHeader(["1", "1", "1", "1", sender])
    ensures var x := ParseEntry(TextOf(l, ["1", "1", "1", "1", sender]));
      x.Some? && x.value.sender == ParseEntry(TextOf(l, ONES)).value.sender
  {
    var header := ["1", "1", "1", "1", sender];
    OnesAreHeader();
    assert forall h | h in header :: h == "1" || h == sender;
    HarmlessMeans(l);
    SenderRead(l, header);
    SenderRead(l, ONES);
  }

  /** The pieces of a served entry. */
  lemma PiecesOf(payload: string, header: seq<string>)
    requires IsHeader(header)
    ensures var pieces := Split(payload, ENTRY_DELIMITER);
      Split(TextOf(payload, header), ENTRY_DELIMITER) ==
        pieces[..|pieces| - 1] + [TextOf(pieces[|pieces| - 1], header)]
  {
    var d := ENTRY_DELIMITER;
    var end := LastPart(payload, d);
    TextExtends(payload, header);
    TextExtends(end, header);
    SplitExtend(payload, FIELD_DELIMITER + Join(header, FIELD_DELIMITER), d);
    LastPartEnds(payload, d);
    forall h | h in header ensures !Contains(h, d) {
      PlainIsClosed(h, d);
    }
    EntryDelimiterInJoin(header);
    StraddleFree(end, Join(header, FIELD_DELIMITER));
    SplitOfOne(TextOf(end, header), d);
  }

  lemma {:induction false} ParsedFrom(texts: seq<string>, x: Entry)
    ensures x in FlatMap(ParsedEntry, texts) <==> exists i :: 0 <= i < |texts| && ParseEntry(texts[i]) == Some(x)
  {
    FlatMapIn(ParsedEntry, texts, x);
    if i :| 0 <= i < |texts| && ParseEntry(texts[i]) == Some(x) {
      assert texts[i] in texts && x in ParsedEntry(texts[i]);
    }
  }

  /** A piece of the payload in front of the last one reads as `x`. */
  ghost predicate ReadInside(payload: string, x: Entry) {
    var pieces := Split(payload, ENTRY_DELIMITER);
    exists i :: 0 <= i < |pieces| - 1 && ParseEntry(pieces[i]) == Some(x)
  }

  /** What a reader sees of a served entry: what its inner pieces read as, then its last one. */
  lemma ReadFrom(payload: string, header: seq<string>, x: Entry)
    requires IsHeader(header)
    ensures x in ParsedBlob(TextOf(payload, header)) <==>
      ReadInside(payload, x) || ParseEntry(TextOf(LastPart(payload, ENTRY_DELIMITER), header)) == Some(x)
  {
    var pieces := Split(payload, ENTRY_DELIMITER);
    PiecesOf(payload, header);
    ParsedFrom(pieces[..|pieces| - 1] + [TextOf(pieces[|pieces| - 1], header)], x);
    ReadLast(pieces, TextOf(pieces[|pieces| - 1], header), x);
  }

  lemma ReadLast(pieces: seq<string>, last: string, x: Entry)
    requires pieces != []
    ensures var all := pieces[..|pieces| - 1] + [last];
      (exists i :: 0 <= i < |all| && ParseEntry(all[i]) == Some(x)) <==>
        (exists i :: 0 <= i < |pieces| - 1 && ParseEntry(pieces[i]) == Some(x)) || ParseEntry(last) == Some(x)
  {
    var all := pieces[..|pieces| - 1] + [last];
    assert all[|all| - 1] == last;
    assert forall i | 0 <= i < |pieces| - 1 :: all[i] == pieces[i];
  }

  /** Every entry read from the text of this one has its sender. */
  ghost predicate SenderKept(e: Entry) {
    forall x | x in ParsedBlob(EntryText(e)) :: x.sender == e.sender
  }

  lemma NothingInside(payload: string, x: Entry)
    requires Attributable(payload)
    ensures !ReadInside(payload, x) && Harmless(LastPart(payload, ENTRY_DELIMITER))
  {
  }

  lemma AttributableText(payload: string, header: seq<string>, x: Entry)
    requires IsHeader(header) && Attributable(payload) && x in ParsedBlob(TextOf(payload, header))
    ensures x.messageId == header[3] && x.sender == header[4]
  {
    NothingInside(payload, x);
    ReadFrom(payload, header, x);
    HarmlessReads(LastPart(payload, ENTRY_DELIMITER), header);
  }

  /** With an attributable payload, whatever is read has the id and the sender it came with. */
  lemma AttributableReads(e: Entry, x: Entry)
    requires ValidMessageId(e.messageId) && Attributable(Join(e.data, DATA_DELIMITER))
    requires x in ParsedBlob(EntryText(e))
    ensures x.messageId == e.messageId && x.sender == e.sender
  {
    EntryTextOf(e);
    AttributableText(Join(e.data, DATA_DELIMITER), HeaderOf(e), x);
  }

  /** An entry with the given payload and sender. */
  function Sample(payload: string, sender: PeerId): Entry {
    Entry([payload], 1, 1, 1, "1", sender, None)
  }

  lemma SampleText(payload: string, sender: PeerId)
    ensures EntryText(Sample(payload, sender)) == TextOf(payload, ["1", "1", "1", "1", sender])
    ensures IsHeader(["1", "1", "1", "1", sender])
  {
    var e := Sample(payload, sender);
    assert ValidMessageId("1");
    EntryTextOf(e);
    assert Print(1) == "1";
    assert HeaderOf(e) == ["1", "1", "1", "1", sender];
  }

  function SomeoneElse(p: PeerId): (q: PeerId)
    ensures q != p
  {
    if p[0] == '1' then SOMEONE_ELSE else SOMEONE
  }

  /** A reader sees `x` in an entry with the payload that somebody else sent. */
  ghost predicate ForgesAs(payload: string, x: Entry) {
    || ReadInside(payload, x)
    || ParseEntry(TextOf(LastPart(payload, ENTRY_DELIMITER), ["1", "1", "1", "1", SomeoneElse(x.sender)])) == Some(x)
  }

  lemma ForgedBy(payload: string, x: Entry)
    requires ForgesAs(payload, x)
    ensures !SenderKept(Sample(payload, SomeoneElse(x.sender)))
  {
    SampleText(payload, SomeoneElse(x.sender));
    ReadFrom(payload, ["1", "1", "1", "1", SomeoneElse(x.sender)], x);
  }

  lemma InnerForges(payload: string, i: nat)
    requires i < |Split(payload, ENTRY_DELIMITER)| - 1 && ParseEntry(Split(payload, ENTRY_DELIMITER)[i]).Some?
    ensures ForgesAs(payload, ParseEntry(Split(payload, ENTRY_DELIMITER)[i]).value)
  {
  }

  lemma HarmfulLast(last: string) returns (x: Entry)
    requires !Harmless(last)
    ensures ParseEntry(TextOf(last, ["1", "1", "1", "1", SomeoneElse(x.sender)])) == Some(x)
  {
    var other := SomeoneElse(ParseEntry(TextOf(last, ONES)).value.sender);
    HarmfulReads(last, other);
    x := ParseEntry(TextOf(last, ["1", "1", "1", "1", other])).value;
  }

  lemma Forges(payload: string) returns (x: Entry)
    requires !Attributable(payload)
    ensures ForgesAs(payload, x)
  {
    var pieces := Split(payload, ENTRY_DELIMITER);
    if Harmless(LastPart(payload, ENTRY_DELIMITER)) {
      var i :| 0 <= i < |pieces| - 1 && ParseEntry(pieces[i]).Some?;
      InnerForges(payload, i);
      x := ParseEntry(pieces[i]).value;
    } else {
      x := HarmfulLast(LastPart(payload, ENTRY_DELIMITER));
    }
  }

  /** A payload that is not attributable is read as a message of somebody else. */
  lemma ForgeryRead(payload: string) returns (e: Entry)
    requires !Attributable(payload)
    ensures e.data == [payload] && ValidMessageId(e.messageId) && !SenderKept(e)
  {
    var x := Forges(payload);
    ForgedBy(payload, x);
    e := Sample(payload, SomeoneElse(x.sender));
    assert ValidMessageId("1");
  }

  /** The senders of all entries with a payload are kept, whatever their ids, clocks and times,
      exactly if the payload is attributable. */
  lemma AttributableExactly(payload: string)
    ensures Attributable(payload) <==>
      forall e: Entry | Join(e.data, DATA_DELIMITER) == payload && ValidMessageId(e.messageId) :: SenderKept(e)
  {
    if Attributable(payload) {
      forall e: Entry, x | Join(e.data, DATA_DELIMITER) == payload && ValidMessageId(e.messageId) && x in ParsedBlob(EntryText(e))
        ensures x.sender == e.sender
      {
        AttributableReads(e, x);
      }
    } else {
      var e := ForgeryRead(payload);
      assert Join(e.data, DATA_DELIMITER) == payload;
    }
  }

  /** Clean data is attributable. */
  lemma CleanIsAttributable(e: Entry)
    requires Clean(e)
    ensures Attributable(Join(e.data, DATA_DELIMITER))
  {
    var payload := Join(e.data, DATA_DELIMITER);
    SplitOfOne(payload, ENTRY_DELIMITER);
    ClosedContainsNone(payload, FIELD_DELIMITER);
    HarmlessMeans(payload);
  }
}
