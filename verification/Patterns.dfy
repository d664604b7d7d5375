/** The fragment of regular expressions the command parser uses: literals, greedy `[class]+` and
    `[class]{n}`, matched by backtracking, leftmost first. */
module Patterns {
  import opened Sequences

  datatype Class = Space | Amount | Alnum | Digit | Hex

  predicate In(cls: Class, c: char) {
    match cls
    case Space => IsSpace(c)
    case Amount => '0' <= c <= '9' || c == '.'
    case Alnum => '0' <= c <= '9' || 'a' <= c <= 'z' || 'A' <= c <= 'Z'
    case Digit => '0' <= c <= '9'
    case Hex => '0' <= c <= '9' || 'a' <= c <= 'f' || 'A' <= c <= 'F'
  }

  /** White space and line ends as in section 22.2.2.9 of ECMA-262. */
  predicate IsSpace(c: char) {
    || c == ' ' || '\U{0009}' <= c <= '\U{000D}' || c == '\U{00A0}' || c == '\U{1680}'
    || '\U{2000}' <= c <= '\U{200A}' || c == '\U{2028}' || c == '\U{2029}' || c == '\U{202F}'
    || c == '\U{205F}' || c == '\U{3000}' || c == '\U{FEFF}'
  }

  /** The digit classes, character by character, and where white space and letters meet them. */
  lemma ClassMembers(c: char)
    ensures In(Digit, c) <==> c in {'0', '1', '2', '3', '4', '5', '6', '7', '8', '9'}
    ensures In(Amount, c) <==> In(Digit, c) || c == '.'
    ensures In(Hex, c) <==> In(Digit, c) || c in {'a', 'b', 'c', 'd', 'e', 'f', 'A', 'B', 'C', 'D', 'E', 'F'}
    ensures In(Alnum, c) <==> In(Digit, c) || 'a' <= c <= 'z' || 'A' <= c <= 'Z'
    ensures c in {' ', '\t', '\n', '\r'} ==> In(Space, c)
    ensures In(Space, c) ==> !In(Amount, c) && !In(Alnum, c) && c != '/'
  {
  }

  datatype Piece = Lit(text: string) | Many(cls: Class) | Times(cls: Class, n: nat)

  type Pattern = seq<Piece>

  predicate AllIn(cls: Class, s: string, i: nat, e: nat) {
    i <= e <= |s| && forall k :: i <= k < e ==> In(cls, s[k])
  }

  /** `p` matches exactly the text from `i` to `e`. */
  predicate Spans(p: Piece, s: string, i: nat, e: nat) {
    match p
    case Lit(text) => i <= e <= |s| && s[i..e] == text
    case Many(cls) => i < e && AllIn(cls, s, i, e)
    case Times(cls, n) => e == i + n && AllIn(cls, s, i, e)
  }

  /** `marks` are the places where the first pieces of a pattern begin and end. */
  ghost predicate Prefix(ps: Pattern, s: string, marks: seq<nat>) {
    1 <= |marks| <= |ps| + 1
    && forall k {:trigger ps[k]} :: 0 <= k < |marks| - 1 ==> Spans(ps[k], s, marks[k], marks[k + 1])
  }

  /** A full match, stated without an engine. */
  ghost predicate IsMatch(ps: Pattern, s: string, marks: seq<nat>) {
    |marks| == |ps| + 1 && Prefix(ps, s, marks)
  }

  ghost predicate MatchesAt(ps: Pattern, s: string, i: nat) {
    exists marks :: IsMatch(ps, s, marks) && marks[0] == i
  }

  // ---------------------------------------------------------------- the engine

  /** The end of the longest run of a class. */
  function RunEnd(cls: Class, s: string, i: nat): (e: nat)
    requires i <= |s|
    ensures i <= e && AllIn(cls, s, i, e) && (e < |s| ==> !In(cls, s[e]))
    decreases |s| - i
  {
    if i < |s| && In(cls, s[i]) then RunEnd(cls, s, i + 1) else i
  }

  /** Continues a partial match, giving back characters of `[class]+` one by one when the rest fails. */
  function Continue(ps: Pattern, s: string, marks: seq<nat>): (r: Option<seq<nat>>)
    requires 1 <= |marks| <= |ps| + 1 && marks[|marks| - 1] <= |s|
    decreases |ps| + 1 - |marks|, |s| + 1
  {
    if |marks| == |ps| + 1 then Some(marks)
    else
      var at := marks[|marks| - 1];
      match ps[|marks| - 1]
      case Lit(text) =>
        if at + |text| <= |s| && s[at..at + |text|] == text then Continue(ps, s, marks + [at + |text|]) else None
      case Times(cls, n) =>
        if at + n <= |s| && AllIn(cls, s, at, at + n) then Continue(ps, s, marks + [at + n]) else None
      case Many(cls) =>
        GiveBack(ps, s, marks, RunEnd(cls, s, at))
  }

  function GiveBack(ps: Pattern, s: string, marks: seq<nat>, e: nat): (r: Option<seq<nat>>)
    requires 1 <= |marks| <= |ps| && marks[|marks| - 1] <= e <= |s|
    decreases |ps| + 1 - |marks|, e
  {
    if e == marks[|marks| - 1] then None
    else
      var r := Continue(ps, s, marks + [e]);
      if r.Some? then r else GiveBack(ps, s, marks, e - 1)
  }

  /** The leftmost match at or after `from`. */
  function Search(ps: Pattern, s: string, from: nat): Option<seq<nat>>
    requires from <= |s|
    decreases |s| - from
  {
    var r := Continue(ps, s, [from]);
    if r.Some? then r else if from == |s| then None else Search(ps, s, from + 1)
  }

  // ---------------------------------------------------------------- the engine finds matches, and all of them

  /** One more piece that fits makes the prefix longer. */
  lemma PrefixGrows(ps: Pattern, s: string, marks: seq<nat>, e: nat)
    requires Prefix(ps, s, marks) && |marks| <= |ps| && Spans(ps[|marks| - 1], s, marks[|marks| - 1], e)
    ensures Prefix(ps, s, marks + [e])
  {
  }

  lemma {:induction false} ContinueSound(ps: Pattern, s: string, marks: seq<nat>)
    requires Prefix(ps, s, marks) && marks[|marks| - 1] <= |s|
    ensures var r := Continue(ps, s, marks);
            r.Some? ==> IsMatch(ps, s, r.value) && marks <= r.value
    decreases |ps| + 1 - |marks|, |s| + 1
  {
    if |marks| <= |ps| {
      var at := marks[|marks| - 1];
      match ps[|marks| - 1] {
        case Lit(text) =>
          if at + |text| <= |s| && s[at..at + |text|] == text {
            PrefixGrows(ps, s, marks, at + |text|);
            ContinueSound(ps, s, marks + [at + |text|]);
          }
        case Times(cls, n) =>
          if at + n <= |s| && AllIn(cls, s, at, at + n) {
            PrefixGrows(ps, s, marks, at + n);
            ContinueSound(ps, s, marks + [at + n]);
          }
        case Many(cls) =>
          GiveBackSound(ps, s, marks, RunEnd(cls, s, at));
      }
    }
  }

  lemma {:induction false} GiveBackSound(ps: Pattern, s: string, marks: seq<nat>, e: nat)
    requires |marks| <= |ps| && Prefix(ps, s, marks) && marks[|marks| - 1] <= e
    requires ps[|marks| - 1].Many? && AllIn(ps[|marks| - 1].cls, s, marks[|marks| - 1], e)
    ensures var r := GiveBack(ps, s, marks, e);
            r.Some? ==> IsMatch(ps, s, r.value) && marks <= r.value
    decreases |ps| + 1 - |marks|, e
  {
    if e > marks[|marks| - 1] {
      PrefixGrows(ps, s, marks, e);
      ContinueSound(ps, s, marks + [e]);
      if Continue(ps, s, marks + [e]).None? {
        GiveBackSound(ps, s, marks, e - 1);
      }
    }
  }

  lemma {:induction false} ContinueComplete(ps: Pattern, s: string, marks: seq<nat>, full: seq<nat>)
    requires IsMatch(ps, s, full) && 1 <= |marks| && marks <= full && marks[|marks| - 1] <= |s|
    ensures Continue(ps, s, marks).Some?
    decreases |ps| + 1 - |marks|, |s| + 1
  {
    if |marks| <= |ps| {
      var n := |marks|;
      var piece := ps[n - 1];
      assert Spans(piece, s, full[n - 1], full[n]);
      assert marks + [full[n]] == full[..n + 1];
      match piece {
        case Lit(text) => ContinueComplete(ps, s, marks + [full[n]], full);
        case Times(cls, m) => ContinueComplete(ps, s, marks + [full[n]], full);
        case Many(cls) => GiveBackComplete(ps, s, marks, RunEnd(cls, s, full[n - 1]), full);
      }
    }
  }

  lemma {:induction false} GiveBackComplete(ps: Pattern, s: string, marks: seq<nat>, e: nat, full: seq<nat>)
    requires IsMatch(ps, s, full) && 1 <= |marks| <= |ps| && marks <= full
    requires marks[|marks| - 1] < full[|marks|] <= e <= |s|
    ensures GiveBack(ps, s, marks, e).Some?
    decreases |ps| + 1 - |marks|, e
  {
    if Continue(ps, s, marks + [e]).None? {
      if e == full[|marks|] {
        assert marks + [e] == full[..|marks| + 1];
        ContinueComplete(ps, s, marks + [e], full);
      } else {
        GiveBackComplete(ps, s, marks, e - 1, full);
      }
    }
  }

  /** The search returns a match at the first place that has one, and fails only if no place has. */
  lemma {:induction false} SearchCorrect(ps: Pattern, s: string, from: nat)
    requires from <= |s|
    ensures var r := Search(ps, s, from);
            if r.Some? then
              && IsMatch(ps, s, r.value) && from <= r.value[0] <= |s|
              && forall i :: from <= i < r.value[0] ==> !MatchesAt(ps, s, i)
            else forall i :: from <= i <= |s| ==> !MatchesAt(ps, s, i)
    decreases |s| - from
  {
    ContinueSound(ps, s, [from]);
    if Continue(ps, s, [from]).None? {
      assert !MatchesAt(ps, s, from) by {
        if MatchesAt(ps, s, from) {
          var full :| IsMatch(ps, s, full) && full[0] == from;
          assert [from] <= full;
          ContinueComplete(ps, s, [from], full);
        }
      }
      if from < |s| {
        SearchCorrect(ps, s, from + 1);
      }
    }
  }

  // ---------------------------------------------------------------- unambiguous patterns

  /** `p` cannot begin with a character of the class. */
  ghost predicate StartsOutside(p: Piece, cls: Class) {
    match p
    case Lit(text) => text != "" && !In(cls, text[0])
    case Many(c) => forall x :: In(c, x) ==> !In(cls, x)
    case Times(c, n) => n > 0 && forall x :: In(c, x) ==> !In(cls, x)
  }

  /** Behind each `[class]+` comes something that cannot continue the run. */
  ghost predicate Unambiguous(ps: Pattern) {
    forall k :: 0 <= k < |ps| ==> EndsClearly(ps, k)
  }

  ghost predicate EndsClearly(ps: Pattern, k: nat)
    requires k < |ps|
  {
    ps[k].Many? ==> k + 1 < |ps| && StartsOutside(ps[k + 1], ps[k].cls)
  }

  lemma StartChar(p: Piece, s: string, i: nat, e: nat, cls: Class)
    requires Spans(p, s, i, e) && StartsOutside(p, cls)
    ensures i < |s| && !In(cls, s[i])
  {
    match p {
      case Lit(text) => assert s[i..e][0] == text[0];
      case Many(c) =>
      case Times(c, n) =>
    }
  }

  /** Then there is at most one way to match at a given place: greediness and backtracking decide nothing. */
  lemma {:induction false} MatchUnique(ps: Pattern, s: string, a: seq<nat>, b: seq<nat>, n: nat)
    requires Unambiguous(ps) && IsMatch(ps, s, a) && IsMatch(ps, s, b) && a[0] == b[0]
    requires n <= |ps|
    ensures a[n] == b[n]
  {
    if n > 0 {
      MatchUnique(ps, s, a, b, n - 1);
      var piece := ps[n - 1];
      assert Spans(piece, s, a[n - 1], a[n]) && Spans(piece, s, b[n - 1], b[n]);
      if piece.Many? {
        assert EndsClearly(ps, n - 1);
        assert n < |ps|;
        var next := ps[n];
        StartChar(next, s, a[n], a[n + 1], piece.cls);
        StartChar(next, s, b[n], b[n + 1], piece.cls);
      }
    }
  }

  lemma SameMarks(ps: Pattern, s: string, a: seq<nat>, b: seq<nat>)
    requires Unambiguous(ps) && IsMatch(ps, s, a) && IsMatch(ps, s, b) && a[0] == b[0]
    ensures a == b
  {
    forall n | 0 <= n <= |ps|
      ensures a[n] == b[n]
    {
      MatchUnique(ps, s, a, b, n);
    }
  }

  /** A match at the very start is what the search returns. */
  lemma SearchAtStart(ps: Pattern, s: string, m: seq<nat>)
    requires Unambiguous(ps) && IsMatch(ps, s, m) && m[0] == 0
    ensures Search(ps, s, 0) == Some(m)
  {
    assert MatchesAt(ps, s, 0);
    SearchCorrect(ps, s, 0);
    SameMarks(ps, s, Search(ps, s, 0).value, m);
  }
}
