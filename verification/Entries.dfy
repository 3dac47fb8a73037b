/**
 Peers, replicated entries and the order in which entries are consumed:
 first by Lamport clock, then by message id.
 */
module Entries {
  import opened Wrappers
  import opened U64

  predicate IsBase58(c: char) {
    || '1' <= c <= '9'
    || ('A' <= c <= 'Z' && c != 'I' && c != 'O')
    || ('a' <= c <= 'z' && c != 'l')
  }

  /** The digits and letters but for the four that look alike: zero, capital i and o, small l. */
  lemma Base58Exactly(c: char)
    ensures IsBase58(c) <==> c in {
      '1', '2', '3', '4', '5', '6', '7', '8', '9',
      'A', 'B', 'C', 'D', 'E', 'F', 'G', 'H', 'J', 'K', 'L', 'M', 'N',
      'P', 'Q', 'R', 'S', 'T', 'U', 'V', 'W', 'X', 'Y', 'Z',
      'a', 'b', 'c', 'd', 'e', 'f', 'g', 'h', 'i', 'j', 'k',
      'm', 'n', 'o', 'p', 'q', 'r', 's', 't', 'u', 'v', 'w', 'x', 'y', 'z'}
  {
  }

  function Repeat(c: char, n: nat): (s: string)
    ensures |s| == n && forall i | 0 <= i < n :: s[i] == c
  {
    if n == 0 then "" else [c] + Repeat(c, n - 1)
  }

  /** The shortest printed form of a peer id, that of a hashed key. */
  const MIN_PEER_LENGTH: nat := 46

  predicate IsPeerText(s: string) {
    |s| >= MIN_PEER_LENGTH && forall c | c in s :: IsBase58(c)
  }

  /** A peer is identified with its printed form, a text in the base58 alphabet. */
  type PeerId = s: string | IsPeerText(s) witness Repeat('1', MIN_PEER_LENGTH)

  function ParsePeer(s: string): Option<PeerId> {
    if IsPeerText(s) then Some(s) else None
  }

  /** Two peers, for examples. */
  const SOMEONE: PeerId := Repeat('1', MIN_PEER_LENGTH)
  const SOMEONE_ELSE: PeerId := Repeat('2', MIN_PEER_LENGTH)

  /** One element of the replica buffer. */
  datatype Entry = Entry(
    data: seq<string>,
    lamportClock: u64,
    outgoingTimestamp: u64,
    incomingTimestamp: u64,
    messageId: string,
    sender: PeerId,
    confirmations: Option<u64>)

  /** What a publisher sends under a message id. */
  datatype Publication = Publication(publisher: PeerId, clock: u64, timestamp: u64, data: seq<string>)

  /** Lexicographic order of texts. */
  predicate TextLess(a: string, b: string) {
    b != "" && (a == "" || a[0] < b[0] || (a[0] == b[0] && TextLess(a[1..], b[1..])))
  }

  predicate KeyLess(e: Entry, f: Entry) {
    e.lamportClock < f.lamportClock ||
    (e.lamportClock == f.lamportClock && TextLess(e.messageId, f.messageId))
  }

  predicate SameKey(e: Entry, f: Entry) {
    e.lamportClock == f.lamportClock && e.messageId == f.messageId
  }

  lemma {:induction false} TextLessTrans(a: string, b: string, c: string)
    requires TextLess(a, b) && TextLess(b, c)
    ensures TextLess(a, c)
  {
    if a != "" && a[0] == b[0] == c[0] {
      TextLessTrans(a[1..], b[1..], c[1..]);
    }
  }

  lemma {:induction false} TextLessTotal(a: string, b: string)
    ensures a == b <==> !TextLess(a, b) && !TextLess(b, a)
    ensures !(TextLess(a, b) && TextLess(b, a))
  {
    if a != "" && b != "" && a[0] == b[0] {
      TextLessTotal(a[1..], b[1..]);
      assert a == [a[0]] + a[1..] && b == [b[0]] + b[1..];
    }
  }

  /** One text is a proper beginning of the other, or has the smaller character where they
      first differ. */
  ghost predicate Precedes(a: string, b: string) {
    || (|a| < |b| && b[..|a|] == a)
    || exists k: nat :: k < |a| && k < |b| && a[..k] == b[..k] && a[k] < b[k]
  }

  /** The recursive order is the ascending order of texts. */
  lemma {:induction false} TextLessExactly(a: string, b: string)
    ensures TextLess(a, b) <==> Precedes(a, b)
  {
    if a != "" && b != "" && a[0] == b[0] {
      TextLessExactly(a[1..], b[1..]);
      PrecedesTail(a, b);
    } else if a != "" && b != "" && a[0] < b[0] {
      assert a[..0] == b[..0];
    }
  }

  lemma PrecedesTail(a: string, b: string)
    requires a != "" && b != "" && a[0] == b[0]
    ensures Precedes(a, b) <==> Precedes(a[1..], b[1..])
  {
    if Precedes(a, b) {
      TailPrecedes(a, b);
    }
    if Precedes(a[1..], b[1..]) {
      PrecedesBefore(a[0], a[1..], b[1..]);
      assert a == [a[0]] + a[1..] && b == [a[0]] + b[1..];
    }
  }

  lemma TailPrecedes(a: string, b: string)
    requires a != "" && b != "" && a[0] == b[0] && Precedes(a, b)
    ensures Precedes(a[1..], b[1..])
  {
    var x, y := a[1..], b[1..];
    if |a| < |b| && b[..|a|] == a {
      assert y[..|x|] == b[..|a|][1..];
    } else {
      var k: nat :| k < |a| && k < |b| && a[..k] == b[..k] && a[k] < b[k];
      assert x[..k - 1] == a[..k][1..] && y[..k - 1] == b[..k][1..];
      assert x[k - 1] < y[k - 1];
    }
  }

  lemma PrecedesBefore(c: char, x: string, y: string)
    requires Precedes(x, y)
    ensures Precedes([c] + x, [c] + y)
  {
    var a, b := [c] + x, [c] + y;
    if |x| < |y| && y[..|x|] == x {
      assert b[..|a|] == [c] + y[..|x|];
    } else {
      var k: nat :| k < |x| && k < |y| && x[..k] == y[..k] && x[k] < y[k];
      assert a[..k + 1] == [c] + x[..k] && b[..k + 1] == [c] + y[..k];
      assert a[k + 1] < b[k + 1];
    }
  }

  /** Entries are ordered by clock, and by ascending message id under one clock. */
  lemma KeyLessExactly(e: Entry, f: Entry)
    ensures KeyLess(e, f) <==>
      e.lamportClock < f.lamportClock || (e.lamportClock == f.lamportClock && Precedes(e.messageId, f.messageId))
  {
    TextLessExactly(e.messageId, f.messageId);
  }

  lemma KeyLessTrans(e: Entry, f: Entry, g: Entry)
    requires KeyLess(e, f) && KeyLess(f, g)
    ensures KeyLess(e, g)
  {
    if e.lamportClock == f.lamportClock == g.lamportClock {
      TextLessTrans(e.messageId, f.messageId, g.messageId);
    }
  }

  /** Two keys are equal exactly when neither precedes the other. */
  lemma KeyLessTotal(e: Entry, f: Entry)
    ensures SameKey(e, f) <==> !KeyLess(e, f) && !KeyLess(f, e)
    ensures !(KeyLess(e, f) && KeyLess(f, e))
  {
    TextLessTotal(e.messageId, f.messageId);
  }
}
