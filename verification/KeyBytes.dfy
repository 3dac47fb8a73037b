/** Saved key bytes: a byte vector printed as `[a, b, ...]` and parsed back. */
module KeyBytes {
  import opened Seqs
  import opened Framing
  import opened Decimal

  type byte = n: nat | n < 256

  predicate IsBracket(c: char) {
    c == '[' || c == ']'
  }

  predicate IsSpace(c: char) {
    c == ' ' || '\t' <= c <= '\r'
  }

  function TrimStart(s: string, p: char -> bool): string {
    if s != "" && p(s[0]) then TrimStart(s[1..], p) else s
  }

  function TrimEnd(s: string, p: char -> bool): string {
    if s != "" && p(s[|s| - 1]) then TrimEnd(s[..|s| - 1], p) else s
  }

  function Trim(s: string, p: char -> bool): string {
    TrimEnd(TrimStart(s, p), p)
  }

  function ParsedByte(s: string): seq<byte> {
    match Parse(Trim(s, IsSpace), 255)
    case None => []
    case Some(n) => [n]
  }

  /** Items that are not numbers are skipped. */
  function StringToVec(input: string): seq<byte> {
    FlatMap(ParsedByte, Split(Trim(input, IsBracket), ","))
  }

  function PrintByte(b: byte): string {
    Print(b)
  }

  /** The debug form of a vector. */
  function Debug(bytes: seq<byte>): string {
    "[" + Join(Map(PrintByte, bytes), ", ") + "]"
  }

  /** The printed items behind the first one, each with its leading blank. */
  function Items(bytes: seq<byte>): seq<string> {
    if bytes == [] then [] else [" " + Print(bytes[0])] + Items(bytes[1..])
  }

  lemma {:induction false} JoinWithBlanks(bytes: seq<byte>)
    requires bytes != []
    ensures Join(Map(PrintByte, bytes), ", ") == Join([Print(bytes[0])] + Items(bytes[1..]), ",")
    decreases |bytes|
  {
    var rest := bytes[1..];
    if rest == [] {
      assert Map(PrintByte, bytes) == [Print(bytes[0])];
    } else {
      JoinWithBlanks(rest);
      var a, b := Join(Map(PrintByte, rest), ", "), Join(Items(rest), ",");
      BlankInFront(Print(rest[0]), Items(rest[1..]));
      assert Items(rest) == [" " + Print(rest[0])] + Items(rest[1..]);
      assert b == " " + a;
      assert Map(PrintByte, bytes)[1..] == Map(PrintByte, rest);
      assert ([Print(bytes[0])] + Items(rest))[1..] == Items(rest);
      assert Print(bytes[0]) + ", " + a == Print(bytes[0]) + "," + b;
    }
  }

  lemma BlankInFront(p: string, parts: seq<string>)
    ensures Join([" " + p] + parts, ",") == " " + Join([p] + parts, ",")
  {
  }

  lemma DigitsTrim(s: string, p: char -> bool)
    requires s != "" && !p(s[0]) && !p(s[|s| - 1])
    ensures Trim(s, p) == s
  {
  }

  lemma ItemParses(b: byte)
    ensures ParsedByte(Print(b)) == [b] && ParsedByte(" " + Print(b)) == [b]
    ensures ',' !in Print(b)
  {
    var s := Print(b);
    assert IsDigit(s[0]) && IsDigit(s[|s| - 1]);
    DigitsTrim(s, IsSpace);
    assert (" " + s)[1..] == s;
    assert TrimStart(" " + s, IsSpace) == TrimStart(s, IsSpace);
    ParseOfPrint(b, 255);
  }

  lemma {:induction false} ItemsParse(bytes: seq<byte>)
    ensures FlatMap(ParsedByte, Items(bytes)) == bytes
    ensures forall t | t in Items(bytes) :: ',' !in t
  {
    if bytes != [] {
      ItemParses(bytes[0]);
      ItemsParse(bytes[1..]);
      assert bytes == [bytes[0]] + bytes[1..];
    }
  }

  lemma PlainSeparable(parts: seq<string>)
    requires parts != [] && forall t | t in parts :: ',' !in t
    ensures Separable(parts, ",")
  {
    forall i | 0 <= i < |parts| ensures Closed(parts[i], ",") && !Contains(parts[i], ",") {
      PlainIsClosed(parts[i], ",");
    }
  }

  lemma BracketsTrim(s: string)
    requires s != "" ==> !IsBracket(s[0]) && !IsBracket(s[|s| - 1])
    ensures Trim("[" + s + "]", IsBracket) == s
  {
    var t := "[" + s + "]";
    assert t[1..] == s + "]";
    if s == "" {
      assert TrimStart(t, IsBracket) == TrimStart("]", IsBracket);
      assert "]"[1..] == "";
    } else {
      var u := s + "]";
      assert u[0] == s[0] && u[|u| - 1] == ']' && u[..|u| - 1] == s;
      assert TrimStart(t, IsBracket) == TrimStart(u, IsBracket) == u;
      assert TrimEnd(u, IsBracket) == TrimEnd(s, IsBracket) == s;
    }
  }

  lemma {:induction false} JoinEnds(parts: seq<string>)
    requires parts != [] && forall t | t in parts :: t != "" && IsDigit(t[|t| - 1])
    ensures var s := Join(parts, ","); s != "" && s[0] == parts[0][0] && IsDigit(s[|s| - 1])
  {
    if |parts| > 1 {
      JoinEnds(parts[1..]);
    }
  }

  lemma {:induction false} ItemsEndInDigits(bytes: seq<byte>)
    ensures forall t | t in Items(bytes) :: t != "" && IsDigit(t[|t| - 1])
  {
    if bytes != [] {
      ItemsEndInDigits(bytes[1..]);
      var t := Print(bytes[0]);
      assert (" " + t)[|t|] == t[|t| - 1] && IsDigit(t[|t| - 1]);
    }
  }

  /** The printed items form one text that splits back into them. */
  lemma PrintedItems(bytes: seq<byte>)
    requires bytes != []
    ensures var parts := [Print(bytes[0])] + Items(bytes[1..]);
      var s := Join(parts, ",");
      && Debug(bytes) == "[" + s + "]"
      && s != "" && IsDigit(s[0]) && IsDigit(s[|s| - 1])
      && Split(s, ",") == parts
  {
    var parts := [Print(bytes[0])] + Items(bytes[1..]);
    JoinWithBlanks(bytes);
    ItemsParse(bytes[1..]);
    ItemsEndInDigits(bytes[1..]);
    ItemParses(bytes[0]);
    assert IsDigit(parts[0][0]) && IsDigit(parts[0][|parts[0]| - 1]);
    JoinEnds(parts);
    PlainSeparable(parts);
    SplitOfJoin(parts, ",");
  }

  lemma NothingSaved()
    ensures StringToVec(Debug([])) == []
  {
    BracketsTrim("");
    assert Debug([]) == "[" + "" + "]";
    assert Split("", ",") == [""] && ParsedByte("") == [] && [""][1..] == [];
  }

  /** Every byte vector, also the empty one, is read back from its debug form. */
  lemma SavedBytesReadBack(bytes: seq<byte>)
    ensures StringToVec(Debug(bytes)) == bytes
  {
    if bytes == [] {
      NothingSaved();
    } else {
      var parts := [Print(bytes[0])] + Items(bytes[1..]);
      PrintedItems(bytes);
      BracketsTrim(Join(parts, ","));
      ItemParses(bytes[0]);
      ItemsParse(bytes[1..]);
      assert parts[1..] == Items(bytes[1..]);
      assert FlatMap(ParsedByte, parts) == [bytes[0]] + bytes[1..] == bytes;
    }
  }

  /** Blanks around a number do not matter, and what is no byte is skipped. */
  lemma JunkIsSkipped()
    ensures ParsedByte(" 7 ") == [7] && ParsedByte("x") == [] && ParsedByte("300") == [] && ParsedByte("") == []
  {
    assert " 7 "[1..] == "7 " && "7 "[..1] == "7" && "7"[..0] == "";
    assert TrimStart(" 7 ", IsSpace) == TrimStart("7 ", IsSpace) == "7 ";
    assert TrimEnd("7 ", IsSpace) == TrimEnd("7", IsSpace) == "7";
    assert "300"[..2] == "30" && "30"[..1] == "3" && "3"[..0] == "";
    assert Value("3") == 3 && Value("30") == 30 && Value("300") == 300;
    DigitsTrim("300", IsSpace);
    DigitsTrim("x", IsSpace);
    assert 'x' in "x";
  }
}
