/** Transfer commands in chat messages: `/send <amount> <token> to <address>` and
    `/send <amount> NFT <id> to <address>`. */
module CommandParser {
  import opened Sequences
  import opened Patterns

  datatype Command =
    | ERC20(amount: string, tokenAddress: string, recipient: string)
    | ERC721(amount: string, tokenId: string, recipient: string)

  function Erc20Pattern(): Pattern {
    [Lit("/send"), Many(Space), Many(Amount), Many(Space), Many(Alnum), Many(Space), Lit("to"), Many(Space),
     Lit("0x"), Times(Hex, 40)]
  }

  function Erc721Pattern(): Pattern {
    [Lit("/send"), Many(Space), Many(Amount), Many(Space), Lit("NFT"), Many(Space), Many(Digit), Many(Space),
     Lit("to"), Many(Space), Lit("0x"), Times(Hex, 40)]
  }

  /** The groups of a match of the first pattern. */
  function Erc20Groups(s: string, m: seq<nat>): Command
    requires IsMatch(Erc20Pattern(), s, m)
  {
    Erc20Bounds(s, m);
    ERC20(s[m[2]..m[3]], s[m[4]..m[5]], s[m[8]..m[10]])
  }

  function Erc721Groups(s: string, m: seq<nat>): Command
    requires IsMatch(Erc721Pattern(), s, m)
  {
    Erc721Bounds(s, m);
    ERC721(s[m[2]..m[3]], s[m[6]..m[7]], s[m[10]..m[12]])
  }

  /** The NFT form is tried first, anywhere in the message; only then the other. */
  function ParseTransferCommand(message: string): Option<Command> {
    var nft := Search(Erc721Pattern(), message, 0);
    SearchCorrect(Erc721Pattern(), message, 0);
    SearchCorrect(Erc20Pattern(), message, 0);
    if nft.Some? then Some(Erc721Groups(message, nft.value))
    else
      var token := Search(Erc20Pattern(), message, 0);
      if token.Some? then Some(Erc20Groups(message, token.value)) else None
  }

  lemma Erc20Bounds(s: string, m: seq<nat>)
    requires IsMatch(Erc20Pattern(), s, m)
    ensures m[2] < m[3] < m[4] < m[5] < m[8] && m[10] == m[8] + 42 && m[10] <= |s|
    ensures AllIn(Amount, s, m[2], m[3]) && AllIn(Alnum, s, m[4], m[5])
    ensures s[m[8]..m[8] + 2] == "0x" && AllIn(Hex, s, m[8] + 2, m[10])
  {
    var ps := Erc20Pattern();
    assert ps[0] == Lit("/send") && ps[1] == Many(Space) && ps[2] == Many(Amount) && ps[3] == Many(Space);
    assert ps[4] == Many(Alnum) && ps[5] == Many(Space) && ps[6] == Lit("to") && ps[7] == Many(Space);
    assert ps[8] == Lit("0x") && ps[9] == Times(Hex, 40);
  }

  lemma Erc721Bounds(s: string, m: seq<nat>)
    requires IsMatch(Erc721Pattern(), s, m)
    ensures m[2] < m[3] < m[6] < m[7] < m[10] && m[12] == m[10] + 42 && m[12] <= |s|
    ensures AllIn(Amount, s, m[2], m[3]) && AllIn(Digit, s, m[6], m[7])
    ensures s[m[10]..m[10] + 2] == "0x" && AllIn(Hex, s, m[10] + 2, m[12])
  {
    var ps := Erc721Pattern();
    assert ps[0] == Lit("/send") && ps[1] == Many(Space) && ps[2] == Many(Amount) && ps[3] == Many(Space);
    assert ps[4] == Lit("NFT") && ps[5] == Many(Space) && ps[6] == Many(Digit) && ps[7] == Many(Space);
    assert ps[8] == Lit("to") && ps[9] == Many(Space) && ps[10] == Lit("0x") && ps[11] == Times(Hex, 40);
  }

  // ---------------------------------------------------------------- well-formed commands and their text

  predicate Word(cls: Class, w: string) {
    w != "" && forall c :: c in w ==> In(cls, c)
  }

  predicate IsAddress(r: string) {
    |r| == 42 && r[..2] == "0x" && forall k :: 2 <= k < 42 ==> In(Hex, r[k])
  }

  predicate WellFormed(c: Command) {
    && Word(Amount, c.amount) && IsAddress(c.recipient)
    && (c.ERC20? ==> Word(Alnum, c.tokenAddress))
    && (c.ERC721? ==> Word(Digit, c.tokenId))
  }

  function Print(c: Command): string {
    match c
    case ERC20(amount, token, recipient) => "/send " + amount + " " + token + " to " + recipient
    case ERC721(amount, id, recipient) => "/send " + amount + " NFT " + id + " to " + recipient
  }

  lemma SliceWord(cls: Class, s: string, i: nat, e: nat)
    requires i < e && AllIn(cls, s, i, e)
    ensures Word(cls, s[i..e])
  {
  }

  lemma AddressSlice(s: string, i: nat)
    requires i + 42 <= |s| && s[i..i + 2] == "0x" && AllIn(Hex, s, i + 2, i + 42)
    ensures IsAddress(s[i..i + 42])
  {
    assert s[i..i + 42][..2] == s[i..i + 2];
  }

  /** Whatever is parsed is a well-formed command. */
  lemma ParsedIsWellFormed(message: string)
    ensures ParseTransferCommand(message).Some? ==> WellFormed(ParseTransferCommand(message).value)
  {
    SearchCorrect(Erc721Pattern(), message, 0);
    SearchCorrect(Erc20Pattern(), message, 0);
    var nft := Search(Erc721Pattern(), message, 0);
    var token := Search(Erc20Pattern(), message, 0);
    if nft.Some? {
      var m := nft.value;
      Erc721Bounds(message, m);
      SliceWord(Amount, message, m[2], m[3]);
      SliceWord(Digit, message, m[6], m[7]);
      AddressSlice(message, m[10]);
    } else if token.Some? {
      var m := token.value;
      Erc20Bounds(message, m);
      SliceWord(Amount, message, m[2], m[3]);
      SliceWord(Alnum, message, m[4], m[5]);
      AddressSlice(message, m[8]);
    }
  }

  // ---------------------------------------------------------------- a text put together from fitting parts

  predicate Fits(p: Piece, part: string) {
    match p
    case Lit(text) => part == text
    case Many(cls) => Word(cls, part)
    case Times(cls, n) => |part| == n && forall c :: c in part ==> In(cls, c)
  }

  function Concat(parts: seq<string>): string {
    if parts == [] then "" else Concat(parts[..|parts| - 1]) + parts[|parts| - 1]
  }

  function Marks(parts: seq<string>): (marks: seq<nat>)
    ensures |marks| == |parts| + 1 && marks[0] == 0 && marks[|parts|] == |Concat(parts)|
  {
    if parts == [] then [0] else Marks(parts[..|parts| - 1]) + [|Concat(parts)|]
  }

  lemma FittingSpans(p: Piece, s: string, at: nat, part: string)
    requires at + |part| <= |s| && s[at..at + |part|] == part && Fits(p, part)
    ensures Spans(p, s, at, at + |part|)
  {
    forall k | at <= k < at + |part|
      ensures s[k] in part
    {
      assert s[k] == part[k - at];
    }
  }

  /** The k-th part stands between the k-th and the next mark. */
  ghost predicate PartAt(s: string, parts: seq<string>, k: nat)
    requires k < |parts|
  {
    var m := Marks(parts);
    m[k] <= m[k + 1] <= |s| && s[m[k]..m[k + 1]] == parts[k]
  }

  lemma MarksSnoc(parts: seq<string>, k: nat)
    requires parts != [] && k < |parts|
    ensures Marks(parts)[k] == Marks(parts[..|parts| - 1])[k]
  {
  }

  lemma {:induction false} PartsInPlace(parts: seq<string>, tail: string, k: nat)
    requires k < |parts|
    ensures PartAt(Concat(parts) + tail, parts, k)
  {
    var n := |parts| - 1;
    var init, last := parts[..n], parts[n];
    assert Concat(parts) + tail == Concat(init) + (last + tail);
    MarksSnoc(parts, k);
    if k < n {
      PartsInPlace(init, last + tail, k);
      MarksSnoc(parts, k + 1);
    } else {
      var at := |Concat(init)|;
      assert (Concat(init) + (last + tail))[at..at + |last|] == last;
    }
  }

  /** Fitting parts one after the other are a match, and its marks cut the text into those parts again. */
  lemma Assemble(ps: Pattern, parts: seq<string>)
    requires |parts| == |ps| && forall k :: 0 <= k < |parts| ==> Fits(ps[k], parts[k])
    ensures IsMatch(ps, Concat(parts), Marks(parts))
    ensures forall k :: 0 <= k < |parts| ==> PartAt(Concat(parts), parts, k)
  {
    var s, m := Concat(parts), Marks(parts);
    assert s + "" == s;
    forall k | 0 <= k < |parts|
      ensures PartAt(s, parts, k) && Spans(ps[k], s, m[k], m[k + 1])
    {
      PartsInPlace(parts, "", k);
      FittingSpans(ps[k], s, m[k], parts[k]);
    }
  }

  // ---------------------------------------------------------------- printing a command and reading it back

  function Erc20Parts(c: Command): seq<string>
    requires c.ERC20? && |c.recipient| >= 2
  {
    ["/send", " ", c.amount, " ", c.tokenAddress, " ", "to", " ", "0x", c.recipient[2..]]
  }

  function Erc721Parts(c: Command): seq<string>
    requires c.ERC721? && |c.recipient| >= 2
  {
    ["/send", " ", c.amount, " ", "NFT", " ", c.tokenId, " ", "to", " ", "0x", c.recipient[2..]]
  }

  lemma {:induction false} ConcatAppend(a: seq<string>, b: seq<string>)
    ensures Concat(a + b) == Concat(a) + Concat(b)
  {
    if b == [] {
      assert a + b == a;
    } else {
      var init := b[..|b| - 1];
      assert (a + b)[..|a + b| - 1] == a + init;
      ConcatAppend(a, init);
    }
  }

  lemma ConcatSnoc(parts: seq<string>, part: string)
    ensures Concat(parts + [part]) == Concat(parts) + part
  {
    assert (parts + [part])[..|parts|] == parts;
  }

  lemma Concat1(a: string)
    ensures Concat([a]) == a
  {
    assert Concat([a][..0]) == "";
  }

  lemma Concat2(a: string, b: string)
    ensures Concat([a, b]) == a + b
  {
    ConcatSnoc([a], b);
    Concat1(a);
    assert [a] + [b] == [a, b];
  }

  lemma Concat3(a: string, b: string, c: string)
    ensures Concat([a, b, c]) == a + b + c
  {
    ConcatSnoc([a, b], c);
    Concat2(a, b);
    assert [a, b] + [c] == [a, b, c];
  }

  /** Both command forms share their beginning and their end. */
  lemma PrintedParts(amount: string, middle: seq<string>, recipient: string)
    requires IsAddress(recipient)
    ensures Concat(["/send", " ", amount] + middle + [" ", "to", " "] + ["0x", recipient[2..]])
         == "/send " + amount + Concat(middle) + " to " + recipient
  {
    var head, tail := ["/send", " ", amount], [" ", "to", " "];
    Concat3("/send", " ", amount);
    Concat3(" ", "to", " ");
    ConcatAppend(head, middle);
    ConcatAppend(head + middle, tail);
    ConcatAppend(head + middle + tail, ["0x", recipient[2..]]);
    ConcatSnoc(["0x"], recipient[2..]);
    ConcatSnoc([], "0x");
    assert ["0x"] + [recipient[2..]] == ["0x", recipient[2..]] && [] + ["0x"] == ["0x"];
    assert "0x" + recipient[2..] == recipient;
    assert " " + "to" + " " == " to " && "/send" + " " == "/send ";
  }

  lemma PrintErc20(c: Command)
    requires c.ERC20? && WellFormed(c)
    ensures Concat(Erc20Parts(c)) == Print(c)
  {
    var middle := [" ", c.tokenAddress];
    PrintedParts(c.amount, middle, c.recipient);
    ConcatSnoc([], " ");
    ConcatSnoc([" "], c.tokenAddress);
    assert [] + [" "] == [" "] && [" "] + [c.tokenAddress] == middle;
    assert Erc20Parts(c) == ["/send", " ", c.amount] + middle + [" ", "to", " "] + ["0x", c.recipient[2..]];
    assert Concat(middle) == " " + c.tokenAddress;
  }

  lemma PrintErc721(c: Command)
    requires c.ERC721? && WellFormed(c)
    ensures Concat(Erc721Parts(c)) == Print(c)
  {
    var middle := [" ", "NFT", " "] + [c.tokenId];
    PrintedParts(c.amount, middle, c.recipient);
    Concat3(" ", "NFT", " ");
    ConcatSnoc([" ", "NFT", " "], c.tokenId);
    assert Erc721Parts(c) == ["/send", " ", c.amount] + middle + [" ", "to", " "] + ["0x", c.recipient[2..]];
    assert " " + "NFT" + " " == " NFT ";
  }

  lemma PatternsUnambiguous()
    ensures Unambiguous(Erc20Pattern()) && Unambiguous(Erc721Pattern())
  {
  }

  lemma FitErc20(c: Command)
    requires c.ERC20? && WellFormed(c)
    ensures forall k :: 0 <= k < 10 ==> Fits(Erc20Pattern()[k], Erc20Parts(c)[k])
  {
    HexPart(c.recipient);
  }

  lemma FitErc721(c: Command)
    requires c.ERC721? && WellFormed(c)
    ensures forall k :: 0 <= k < 12 ==> Fits(Erc721Pattern()[k], Erc721Parts(c)[k])
  {
    HexPart(c.recipient);
  }

  lemma HexPart(r: string)
    requires IsAddress(r)
    ensures Fits(Times(Hex, 40), r[2..])
  {
    forall c | c in r[2..]
      ensures In(Hex, c)
    {
      var k :| 0 <= k < 40 && r[2..][k] == c;
      assert r[k + 2] == c;
    }
  }

  /** Two adjacent parts read as one stretch. */
  lemma JoinParts(s: string, parts: seq<string>, k: nat)
    requires k + 1 < |parts| && PartAt(s, parts, k) && PartAt(s, parts, k + 1)
    ensures s[Marks(parts)[k]..Marks(parts)[k + 2]] == parts[k] + parts[k + 1]
  {
    JoinSlices(s, Marks(parts)[k], Marks(parts)[k + 1], Marks(parts)[k + 2]);
  }

  lemma JoinSlices(s: string, a: nat, b: nat, c: nat)
    requires a <= b <= c <= |s|
    ensures s[a..c] == s[a..b] + s[b..c]
  {
  }

  lemma RoundTripErc721(c: Command)
    requires c.ERC721? && WellFormed(c)
    ensures ParseTransferCommand(Print(c)) == Some(c)
  {
    var ps, parts := Erc721Pattern(), Erc721Parts(c);
    PatternsUnambiguous();
    FitErc721(c);
    PrintErc721(c);
    Assemble(ps, parts);
    SearchAtStart(ps, Print(c), Marks(parts));
    var s := Print(c);
    assert PartAt(s, parts, 2) && PartAt(s, parts, 6) && PartAt(s, parts, 10) && PartAt(s, parts, 11);
    JoinParts(s, parts, 10);
    assert "0x" + c.recipient[2..] == c.recipient;
  }

  // ---------------------------------------------------------------- a printed token command is no NFT command

  predicate Slashless(s: string) {
    forall i :: 0 <= i < |s| ==> s[i] != '/'
  }

  predicate OnlyFirst(s: string) {
    s != "" && forall i :: 0 < i < |s| ==> s[i] != '/'
  }

  lemma OnlyFirstConcat(a: string, b: string)
    requires OnlyFirst(a) && Slashless(b)
    ensures OnlyFirst(a + b)
  {
  }

  lemma SlashlessWord(cls: Class, w: string)
    requires Word(cls, w) && !In(cls, '/')
    ensures Slashless(w)
  {
    forall i | 0 <= i < |w|
      ensures w[i] != '/'
    {
      assert w[i] in w;
    }
  }

  lemma SlashlessAddress(r: string)
    requires IsAddress(r)
    ensures Slashless(r)
  {
    assert r[..2][0] == r[0] && r[..2][1] == r[1];
  }

  lemma SlashOnlyFirst(c: Command)
    requires WellFormed(c) && c.ERC20?
    ensures OnlyFirst(Print(c))
  {
    SlashlessWord(Amount, c.amount);
    SlashlessWord(Alnum, c.tokenAddress);
    SlashlessAddress(c.recipient);
    var head := "/send " + c.amount;
    OnlyFirstConcat("/send ", c.amount);
    OnlyFirstConcat(head, " ");
    OnlyFirstConcat(head + " ", c.tokenAddress);
    OnlyFirstConcat(head + " " + c.tokenAddress, " to ");
    OnlyFirstConcat(head + " " + c.tokenAddress + " to ", c.recipient);
  }

  /** Two runs of one class from the same place, each followed by something else, end together. */
  lemma SameEnd(cls: Class, s: string, i: nat, e: nat, f: nat)
    requires AllIn(cls, s, i, e) && AllIn(cls, s, i, f) && e < |s| && f < |s| && !In(cls, s[e]) && !In(cls, s[f])
    ensures e == f
  {
  }

  /** The first pieces of a match of the NFT pattern. */
  lemma Erc721Head(s: string, m: seq<nat>)
    requires IsMatch(Erc721Pattern(), s, m)
    ensures m[1] == m[0] + 5 < m[2] < m[3] < m[4] && m[5] == m[4] + 3 < m[6] < m[7] <= |s|
    ensures s[m[0]..m[1]] == "/send" && s[m[4]..m[5]] == "NFT"
    ensures AllIn(Space, s, m[1], m[2]) && AllIn(Amount, s, m[2], m[3]) && AllIn(Space, s, m[3], m[4])
    ensures AllIn(Space, s, m[5], m[6]) && AllIn(Digit, s, m[6], m[7])
  {
    var ps := Erc721Pattern();
    assert ps[0] == Lit("/send") && ps[1] == Many(Space) && ps[2] == Many(Amount) && ps[3] == Many(Space);
    assert ps[4] == Lit("NFT") && ps[5] == Many(Space) && ps[6] == Many(Digit);
  }

  /** Where a match of the NFT pattern at the start of the text would have to stand. */
  lemma NftMarks(c: Command, m: seq<nat>)
    requires c.ERC20? && WellFormed(c) && IsMatch(Erc721Pattern(), Print(c), m) && m[0] == 0
    ensures m[4] == 7 + |c.amount| && m[5] == 10 + |c.amount| < m[6] < |Print(c)|
    ensures Print(c)[m[4]..m[5]] == "NFT" && AllIn(Space, Print(c), m[5], m[6])
  {
    var s, a := Print(c), |c.amount|;
    Erc721Head(s, m);
    Layout(c);
    ClassMembers(s[m[2]]);
    ClassMembers(s[6]);
    SameEnd(Space, s, 5, 6, m[2]);
    ClassMembers(s[m[3]]);
    ClassMembers(s[6 + a]);
    SameEnd(Amount, s, 6, 6 + a, m[3]);
    assert s[m[4]] == s[m[4]..m[5]][0] == 'N';
    ClassMembers(s[7 + a]);
    SameEnd(Space, s, 6 + a, 7 + a, m[4]);
  }

  /** A word of letters and digits that starts with NFT, with white space there, is NFT, and what follows the white
      space stands behind the one blank. */
  lemma BehindNft(s: string, at: nat, t: nat, n: nat)
    requires at + 3 < n < |s| && at + t + 1 < |s| && s[at..at + 3] == "NFT" && AllIn(Space, s, at + 3, n)
    requires AllIn(Alnum, s, at, at + t) && s[at + t] == ' ' && s[at + t + 1] == 't' && !In(Space, s[n])
    ensures s[n] == 't'
  {
    assert s[at] == s[at..at + 3][0] && s[at + 1] == s[at..at + 3][1] && s[at + 2] == s[at..at + 3][2];
    ClassMembers(s[at + 3]);
    assert t == 3;
    SameEnd(Space, s, at + 3, at + 4, n);
  }

  lemma NoNftAtStart(c: Command, m: seq<nat>)
    requires c.ERC20? && WellFormed(c) && IsMatch(Erc721Pattern(), Print(c), m)
    ensures m[0] != 0
  {
    var s, a, t := Print(c), |c.amount|, |c.tokenAddress|;
    if m[0] == 0 {
      Layout(c);
      NftMarks(c, m);
      ClassMembers(s[m[6]]);
      if !In(Space, s[m[6]]) {
        BehindNft(s, 7 + a, t, m[6]);
      }
      Erc721Head(s, m);
    }
  }

  /** No printed ERC20 command matches the NFT pattern anywhere, not even for a token called NFT. */
  lemma NoNftInside(c: Command, i: nat)
    requires c.ERC20? && WellFormed(c)
    ensures !MatchesAt(Erc721Pattern(), Print(c), i)
  {
    if MatchesAt(Erc721Pattern(), Print(c), i) {
      var m :| IsMatch(Erc721Pattern(), Print(c), m) && m[0] == i;
      NoNftAtStart(c, m);
      SlashOnlyFirst(c);
      SlashAtMatch(Print(c), m);
    }
  }

  lemma SlashAtMatch(s: string, m: seq<nat>)
    requires IsMatch(Erc721Pattern(), s, m)
    ensures m[0] < |s| && s[m[0]] == '/'
  {
    Erc721Head(s, m);
    assert s[m[0]..m[1]][0] == '/';
  }

  /** Where the pieces of a printed ERC20 command stand. */
  lemma Layout(c: Command)
    requires c.ERC20? && WellFormed(c)
    ensures var s, a, t := Print(c), |c.amount|, |c.tokenAddress|;
            && |s| == 53 + a + t
            && AllIn(Space, s, 5, 6) && AllIn(Amount, s, 6, 6 + a) && AllIn(Space, s, 6 + a, 7 + a)
            && AllIn(Alnum, s, 7 + a, 7 + a + t) && s[7 + a + t] == ' ' && s[8 + a + t] == 't'
            && s[6] in c.amount && s[7 + a] in c.tokenAddress
  {
    var s, a, t := Print(c), |c.amount|, |c.tokenAddress|;
    assert s == "/send " + c.amount + " " + c.tokenAddress + " to " + c.recipient;
    forall k | 6 <= k < 6 + a
      ensures s[k] == c.amount[k - 6]
    {
    }
    forall k | 7 + a <= k < 7 + a + t
      ensures s[k] == c.tokenAddress[k - 7 - a]
    {
    }
  }

  lemma RoundTripErc20(c: Command)
    requires c.ERC20? && WellFormed(c)
    ensures ParseTransferCommand(Print(c)) == Some(c)
  {
    var ps, parts := Erc20Pattern(), Erc20Parts(c);
    PatternsUnambiguous();
    FitErc20(c);
    PrintErc20(c);
    Assemble(ps, parts);
    SearchAtStart(ps, Print(c), Marks(parts));
    var s := Print(c);
    SearchCorrect(Erc721Pattern(), s, 0);
    if Search(Erc721Pattern(), s, 0).Some? {
      NoNftInside(c, Search(Erc721Pattern(), s, 0).value[0]);
    }
    assert PartAt(s, parts, 2) && PartAt(s, parts, 4) && PartAt(s, parts, 8) && PartAt(s, parts, 9);
    JoinParts(s, parts, 8);
    assert "0x" + c.recipient[2..] == c.recipient;
  }

  /** Printing any well-formed command and parsing the text gives the command back. */
  lemma RoundTrip(c: Command)
    requires WellFormed(c)
    ensures ParseTransferCommand(Print(c)) == Some(c)
  {
    if c.ERC20? {
      RoundTripErc20(c);
    } else {
      RoundTripErc721(c);
    }
  }

  /** Both forms as they are written, for any address. */
  lemma WrittenForms(r: string)
    requires IsAddress(r)
    ensures ParseTransferCommand("/send 1.5 USDC to " + r) == Some(ERC20("1.5", "USDC", r))
    ensures ParseTransferCommand("/send 1 NFT 42 to " + r) == Some(ERC721("1", "42", r))
  {
    var token, nft := ERC20("1.5", "USDC", r), ERC721("1", "42", r);
    assert "/send " + "1.5" + " " + "USDC" + " to " + r == "/send 1.5 USDC to " + r;
    assert "/send " + "1" + " NFT " + "42" + " to " + r == "/send 1 NFT 42 to " + r;
    RoundTrip(token);
    RoundTrip(nft);
  }

  /** Any message that parses is equivalent to the canonical text of what was parsed. */
  lemma ParseStable(message: string)
    requires ParseTransferCommand(message).Some?
    ensures ParseTransferCommand(Print(ParseTransferCommand(message).value)) == ParseTransferCommand(message)
  {
    ParsedIsWellFormed(message);
    RoundTrip(ParseTransferCommand(message).value);
  }

  /** A message is refused exactly if neither form occurs anywhere in it, and read as a token transfer
      exactly if the NFT form does not occur but the other does. */
  lemma ParseDecides(message: string)
    ensures ParseTransferCommand(message).None? <==>
              forall i :: 0 <= i <= |message| ==>
                !MatchesAt(Erc721Pattern(), message, i) && !MatchesAt(Erc20Pattern(), message, i)
    ensures ParseTransferCommand(message).Some? ==>
              (ParseTransferCommand(message).value.ERC721? <==>
                 exists i :: 0 <= i <= |message| && MatchesAt(Erc721Pattern(), message, i))
  {
    SearchCorrect(Erc721Pattern(), message, 0);
    SearchCorrect(Erc20Pattern(), message, 0);
    var nft, token := Search(Erc721Pattern(), message, 0), Search(Erc20Pattern(), message, 0);
    if nft.Some? {
      assert MatchesAt(Erc721Pattern(), message, nft.value[0]);
    }
    if token.Some? {
      assert MatchesAt(Erc20Pattern(), message, token.value[0]);
    }
  }
}
