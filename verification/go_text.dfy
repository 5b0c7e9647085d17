/** Go strings and the library operations on them that the modelled code relies on:
    byte-wise comparison, ordering of keys, and Unicode white space. */
module GoText {

  /** A Go string is a sequence of bytes; a byte is written as the character with its code. */
  type Byte = c: char | c as int < 0x100 witness 'a'
  type Text = seq<Byte>

  // ---------- Orders ----------

  ghost predicate StrictTotal<T(!new)>(less: (T, T) -> bool) {
    && (forall x :: !less(x, x))
    && (forall x, y, z :: less(x, y) && less(y, z) ==> less(x, z))
    && (forall x, y :: x != y ==> less(x, y) || less(y, x))
  }

  ghost predicate Ascending<T(!new)>(s: seq<T>, less: (T, T) -> bool) {
    forall i, j :: 0 <= i < j < |s| ==> less(s[i], s[j])
  }

  /** Go's `<` on strings: the first differing byte decides, a proper prefix comes first. */
  predicate Less(a: Text, b: Text) {
    b != [] && (a == [] || a[0] < b[0] || (a[0] == b[0] && Less(a[1..], b[1..])))
  }

  lemma {:induction false} LessIrreflexive(a: Text)
    ensures !Less(a, a)
  {
    if a != [] {
      LessIrreflexive(a[1..]);
    }
  }

  lemma {:induction false} LessTransitive(a: Text, b: Text, c: Text)
    requires Less(a, b) && Less(b, c)
    ensures Less(a, c)
  {
    if a != [] && a[0] == b[0] == c[0] {
      LessTransitive(a[1..], b[1..], c[1..]);
    }
  }

  lemma {:induction false} LessConnected(a: Text, b: Text)
    requires a != b
    ensures Less(a, b) || Less(b, a)
  {
    if a != [] && b != [] && a[0] == b[0] {
      assert a == [a[0]] + a[1..] && b == [b[0]] + b[1..];
      LessConnected(a[1..], b[1..]);
    }
  }

  lemma LessIsTotal()
    ensures StrictTotal(Less)
  {
    forall x: Text ensures !Less(x, x) { LessIrreflexive(x); }
    forall x: Text, y: Text, z: Text | Less(x, y) && Less(y, z) ensures Less(x, z) { LessTransitive(x, y, z); }
    forall x: Text, y: Text | x != y ensures Less(x, y) || Less(y, x) { LessConnected(x, y); }
  }

  /** The texts agree before this place and differ there. */
  ghost predicate DifferFirstAt(a: Text, b: Text, i: int) {
    0 <= i < |a| && i < |b| && a[..i] == b[..i] && a[i] != b[i]
  }

  lemma TailsDifferAlike(a: Text, b: Text, i: nat)
    requires a != [] && b != [] && a[0] == b[0]
    ensures DifferFirstAt(a[1..], b[1..], i) <==> DifferFirstAt(a, b, i + 1)
  {
    if i + 1 < |a| && i + 1 < |b| {
      assert a[..i + 1] == [a[0]] + a[1..][..i] && b[..i + 1] == [a[0]] + b[1..][..i];
      if a[..i + 1] == b[..i + 1] { assert a[1..][..i] == a[..i + 1][1..] && b[1..][..i] == b[..i + 1][1..]; }
    }
  }

  lemma TailsArePrefixesAlike(a: Text, b: Text)
    requires a != [] && b != [] && a[0] == b[0]
    ensures a[1..] < b[1..] <==> a < b
  {
    assert a == [a[0]] + a[1..] && b == [a[0]] + b[1..];
  }

  /** The first text has the smaller byte where the two first differ. */
  ghost predicate IsSmallerAt(a: Text, b: Text, i: int) { DifferFirstAt(a, b, i) && a[i] < b[i] }

  /** A text comes before another one exactly if it is a proper prefix of it or has the smaller byte where they first
      differ. */
  lemma {:induction false} LessIff(a: Text, b: Text)
    ensures Less(a, b) <==> a < b || exists i :: IsSmallerAt(a, b, i)
  {
    if a != [] && b != [] {
      if a[0] != b[0] {
        assert IsSmallerAt(a, b, 0) <==> a[0] < b[0];
      } else {
        LessIff(a[1..], b[1..]);
        TailsArePrefixesAlike(a, b);
        assert Less(a, b) <==> Less(a[1..], b[1..]);
        hide Less;
        if i :| IsSmallerAt(a[1..], b[1..], i) {
          TailsDifferAlike(a, b, i);
          assert IsSmallerAt(a, b, i + 1);
        }
        if i :| IsSmallerAt(a, b, i) {
          TailsDifferAlike(a, b, i - 1);
          assert IsSmallerAt(a[1..], b[1..], i - 1);
        }
      }
    }
  }

  /** The order of windows and panes: by index, equal indices by key. */
  datatype Rank = Rank(index: int, key: Text)

  predicate Before(a: Rank, b: Rank) {
    a.index < b.index || (a.index == b.index && Less(a.key, b.key))
  }

  lemma BeforeIsTotal()
    ensures StrictTotal(Before)
  {
    LessIsTotal();
    forall x: Rank, y: Rank, z: Rank | Before(x, y) && Before(y, z) ensures Before(x, z) {
      if x.index == y.index == z.index { LessTransitive(x.key, y.key, z.key); }
    }
    forall x: Rank, y: Rank | x != y ensures Before(x, y) || Before(y, x) {
      if x.index == y.index { LessConnected(x.key, y.key); }
    }
  }

  // ---------- The one ascending listing of a set ----------

  ghost function Elements<T>(s: seq<T>): set<T> {
    set x | x in s
  }

  /** A set has only one ascending listing, so sorting map keys hides the iteration order. */
  lemma {:induction false} AscendingIsUnique<T(!new)>(a: seq<T>, b: seq<T>, less: (T, T) -> bool)
    requires StrictTotal(less) && Ascending(a, less) && Ascending(b, less)
    requires Elements(a) == Elements(b)
    ensures a == b
  {
    if a == [] {
      NoElements(b);
    } else {
      HeadIsLeast(a, less);
      NoElements(b);
      HeadIsLeast(b, less);
      AscendingTail(a, less);
      AscendingTail(b, less);
      AscendingIsUnique(a[1..], b[1..], less);
      assert a == [a[0]] + a[1..] && b == [b[0]] + b[1..];
    }
  }

  lemma NoElements<T>(s: seq<T>)
    ensures s == [] <==> Elements(s) == {}
  {
    if s != [] { assert s[0] in Elements(s); }
  }

  lemma HeadIsLeast<T(!new)>(s: seq<T>, less: (T, T) -> bool)
    requires Ascending(s, less) && s != []
    ensures IsLeast(s[0], Elements(s), less)
  {
  }

  lemma AscendingTail<T(!new)>(a: seq<T>, less: (T, T) -> bool)
    requires StrictTotal(less) && Ascending(a, less) && a != []
    ensures Ascending(a[1..], less) && Elements(a[1..]) == Elements(a) - {a[0]}
  {
    forall x | x in Elements(a) - {a[0]} ensures x in Elements(a[1..]) {
      var i :| 0 <= i < |a| && a[i] == x;
      assert a[1..][i - 1] == x;
    }
  }

  ghost predicate IsLeast<T>(m: T, s: set<T>, less: (T, T) -> bool) {
    m in s && forall x :: x in s && x != m ==> less(m, x)
  }

  lemma {:induction false} HasLeast<T(!new)>(s: set<T>, less: (T, T) -> bool)
    requires StrictTotal(less) && s != {}
    ensures exists m :: IsLeast(m, s, less)
  {
    var m :| m in s;
    if s == {m} {
      assert IsLeast(m, s, less);
    } else {
      HasLeast(s - {m}, less);
      var least :| IsLeast(least, s - {m}, less);
      assert IsLeast(if less(least, m) then least else m, s, less);
    }
  }

  ghost predicate IsListing<T(!new)>(r: seq<T>, s: set<T>, less: (T, T) -> bool) {
    Ascending(r, less) && Elements(r) == s && |r| == |s|
  }

  lemma {:induction false} HasListing<T(!new)>(s: set<T>, less: (T, T) -> bool)
    requires StrictTotal(less)
    ensures exists r :: IsListing(r, s, less)
  {
    if s == {} {
      assert IsListing([], s, less);
    } else {
      HasLeast(s, less);
      var m :| IsLeast(m, s, less);
      HasListing(s - {m}, less);
      var rest :| IsListing(rest, s - {m}, less);
      forall i | 0 <= i < |rest| ensures less(m, rest[i]) {
        assert rest[i] in Elements(rest);
      }
      assert Elements([m] + rest) == {m} + Elements(rest);
      assert IsListing([m] + rest, s, less);
    }
  }

  /** The ascending listing of a set. */
  ghost function InOrder<T(!new)>(s: set<T>, less: (T, T) -> bool): (r: seq<T>)
    requires StrictTotal(less)
    ensures IsListing(r, s, less)
  {
    HasListing(s, less);
    var r :| IsListing(r, s, less);
    r
  }

  lemma InOrderIs<T(!new)>(s: seq<T>, less: (T, T) -> bool)
    requires StrictTotal(less) && Ascending(s, less)
    ensures s == InOrder(Elements(s), less)
  {
    AscendingIsUnique(s, InOrder(Elements(s), less), less);
  }

  ghost function InKeyOrder(s: set<Text>): (r: seq<Text>)
    ensures Elements(r) == s && |r| == |s|
  {
    LessIsTotal();
    InOrder(s, Less)
  }

  ghost function InRankOrder(s: set<Rank>): (r: seq<Rank>)
    ensures Elements(r) == s && |r| == |s|
  {
    BeforeIsTotal();
    InOrder(s, Before)
  }

  // ---------- White space ----------

  /** s is the UTF-8 encoding of one character that unicode.IsSpace accepts. */
  predicate SpaceRune(s: Text) {
    if |s| == 1 then '\t' <= s[0] <= '\r' || s[0] == ' '
    else if |s| == 2 then s[0] as int == 0xC2 && s[1] as int in {0x85, 0xA0}
    else if |s| == 3 then
      var b := s[2] as int;
      match (s[0] as int, s[1] as int)
      case (0xE1, 0x9A) => b == 0x80
      case (0xE2, 0x80) => 0x80 <= b <= 0x8A || b in {0xA8, 0xA9, 0xAF}
      case (0xE2, 0x81) => b == 0x9F
      case (0xE3, 0x80) => b == 0x80
      case _ => false
    else false
  }

  /** The length of the white-space character that s starts with, 0 if there is none. */
  function LeadingSpace(s: Text): (n: nat)
    ensures n <= |s| && n <= 3
    ensures n > 0 ==> SpaceRune(s[..n])
  {
    if |s| >= 1 && SpaceRune(s[..1]) then 1
    else if |s| >= 2 && SpaceRune(s[..2]) then 2
    else if |s| >= 3 && SpaceRune(s[..3]) then 3
    else 0
  }

  function TrailingSpace(s: Text): (n: nat)
    ensures n <= |s| && n <= 3
    ensures n > 0 ==> SpaceRune(s[|s| - n..])
  {
    if |s| >= 1 && SpaceRune(s[|s| - 1..]) then 1
    else if |s| >= 2 && SpaceRune(s[|s| - 2..]) then 2
    else if |s| >= 3 && SpaceRune(s[|s| - 3..]) then 3
    else 0
  }

  function TrimLeft(s: Text): Text {
    var n := LeadingSpace(s);
    if n == 0 then s else TrimLeft(s[n..])
  }

  function TrimRight(s: Text): Text {
    var n := TrailingSpace(s);
    if n == 0 then s else TrimRight(s[..|s| - n])
  }

  /** strings.TrimSpace */
  function TrimSpace(s: Text): Text {
    TrimRight(TrimLeft(s))
  }

  predicate Blank(s: Text) {
    TrimSpace(s) == []
  }

  /** Trimming takes off only white-space bytes at the two ends, so a text whose first and last
      bytes cannot belong to white space is left as it is. */
  lemma TrimKeepsSolid(s: Text)
    requires s != [] && 'a' <= s[0] <= 'z' && 'a' <= s[|s| - 1] <= 'z'
    ensures TrimSpace(s) == s
  {
    hide SpaceRune;
    forall k | 1 <= k <= |s| ensures !SpaceRune(s[..k]) && !SpaceRune(s[|s| - k..]) {
      LettersAreNoSpace(s[..k]);
      LettersAreNoSpace(s[|s| - k..]);
    }
    assert LeadingSpace(s) == 0;
    assert TrailingSpace(s) == 0;
  }

  lemma LettersAreNoSpace(s: Text)
    requires s != [] && ('a' <= s[0] <= 'z' || 'a' <= s[|s| - 1] <= 'z')
    ensures !SpaceRune(s)
  {
  }

  lemma {:induction false} TrimRightIsPrefix(s: Text)
    ensures TrimRight(s) <= s
  {
    if TrailingSpace(s) > 0 { TrimRightIsPrefix(s[..|s| - TrailingSpace(s)]); }
  }

  /** A text that starts with a letter is not blank. */
  lemma {:induction false} LetterIsNotBlank(s: Text)
    requires s != [] && 'a' <= s[0] <= 'z'
    ensures !Blank(s)
  {
    assert LeadingSpace(s) == 0;
    TrimRightKeepsLetter(s);
  }

  lemma SpaceIsNoLetter(s: Text)
    requires SpaceRune(s)
    ensures s != [] && !('a' <= s[0] <= 'z')
  {
  }

  lemma {:induction false} TrimRightKeepsLetter(s: Text)
    requires s != [] && 'a' <= s[0] <= 'z'
    ensures TrimRight(s) != [] && TrimRight(s)[0] == s[0]
  {
    var n := TrailingSpace(s);
    if n > 0 {
      assert s[|s| - n..][0] == s[|s| - n];
      SpaceIsNoLetter(s[|s| - n..]);
      TrimRightKeepsLetter(s[..|s| - n]);
    }
  }

  // ---------- What trimming takes off ----------

  function Flat(runes: seq<Text>): Text {
    if runes == [] then [] else runes[0] + Flat(runes[1..])
  }

  lemma JoinedThree(a: Text, b: Text, c: Text)
    ensures a + (b + c) == (a + b) + c
  {
  }

  lemma {:induction false} FlatAppend(a: seq<Text>, b: seq<Text>)
    ensures Flat(a + b) == Flat(a) + Flat(b)
  {
    if a == [] {
      assert a + b == b;
    } else {
      FlatAppend(a[1..], b);
      assert (a + b)[1..] == a[1..] + b;
      JoinedThree(a[0], Flat(a[1..]), Flat(b));
    }
  }

  /** The text consists of white-space characters only. */
  ghost predicate IsWhite(s: Text) {
    exists runes: seq<Text> :: AreSpaces(runes) && Flat(runes) == s
  }

  ghost predicate AreSpaces(runes: seq<Text>) {
    forall i :: 0 <= i < |runes| ==> SpaceRune(runes[i])
  }

  lemma WhiteAppend(a: Text, b: Text)
    requires IsWhite(a) && IsWhite(b)
    ensures IsWhite(a + b)
  {
    hide SpaceRune;
    var left: seq<Text> :| AreSpaces(left) && Flat(left) == a;
    var right: seq<Text> :| AreSpaces(right) && Flat(right) == b;
    FlatAppend(left, right);
    assert AreSpaces(left + right);
  }

  lemma OneIsWhite(s: Text)
    requires s == [] || SpaceRune(s)
    ensures IsWhite(s)
  {
    hide SpaceRune;
    var runes: seq<Text> := if s == [] then [] else [s];
    assert AreSpaces(runes) && Flat(runes) == s;
  }

  lemma {:induction false} TrimLeftIsExact(s: Text) returns (left: Text)
    ensures s == left + TrimLeft(s) && IsWhite(left) && LeadingSpace(TrimLeft(s)) == 0
  {
    hide SpaceRune, IsWhite, LeadingSpace;
    var n := LeadingSpace(s);
    OneIsWhite(s[..n]);
    left := [];
    if n > 0 {
      var more := TrimLeftIsExact(s[n..]);
      WhiteAppend(s[..n], more);
      left := s[..n] + more;
      JoinedThree(s[..n], more, TrimLeft(s[n..]));
    }
  }

  lemma {:induction false} TrimRightIsExact(s: Text) returns (right: Text)
    ensures s == TrimRight(s) + right && IsWhite(right) && TrailingSpace(TrimRight(s)) == 0
  {
    hide SpaceRune, IsWhite, TrailingSpace;
    var rest := |s| - TrailingSpace(s);
    OneIsWhite(s[rest..]);
    right := [];
    if rest < |s| {
      var more := TrimRightIsExact(s[..rest]);
      WhiteAppend(more, s[rest..]);
      right := more + s[rest..];
      JoinedThree(TrimRight(s[..rest]), more, s[rest..]);
    }
  }

  /** Neither the first nor the last k bytes of the text are a white-space character. */
  ghost predicate EndsAreClean(s: Text, k: nat)
    requires k <= |s|
  {
    !SpaceRune(s[..k]) && !SpaceRune(s[|s| - k..])
  }

  /** No white-space character starts or ends the text. */
  ghost predicate IsTrimmed(s: Text) {
    forall k: nat :: 1 <= k <= |s| ==> EndsAreClean(s, k)
  }

  lemma RunesAreShort(rune: Text)
    ensures SpaceRune(rune) ==> 1 <= |rune| <= 3
  {
  }

  lemma NoSpaceAtStart(s: Text, k: nat)
    requires LeadingSpace(s) == 0 && 1 <= k <= |s|
    ensures !SpaceRune(s[..k])
  {
    RunesAreShort(s[..k]);
    hide SpaceRune;
    if k <= 3 { assert k == 1 || k == 2 || k == 3; }
  }

  lemma NoSpaceAtEnd(s: Text, k: nat)
    requires TrailingSpace(s) == 0 && 1 <= k <= |s|
    ensures !SpaceRune(s[|s| - k..])
  {
    RunesAreShort(s[|s| - k..]);
    hide SpaceRune;
    if k <= 3 { assert k == 1 || k == 2 || k == 3; }
  }

  lemma NoSpaceAtEnds(s: Text)
    requires LeadingSpace(s) == 0 && TrailingSpace(s) == 0
    ensures IsTrimmed(s)
  {
    hide SpaceRune, LeadingSpace, TrailingSpace;
    forall k: nat | 1 <= k <= |s| ensures EndsAreClean(s, k) {
      NoSpaceAtStart(s, k);
      NoSpaceAtEnd(s, k);
    }
  }

  lemma {:induction false} PrefixStartsAlike(s: Text, n: nat)
    requires n <= |s| && LeadingSpace(s) == 0
    ensures LeadingSpace(s[..n]) == 0
  {
    hide SpaceRune;
    assert forall k :: 0 <= k <= n ==> s[..n][..k] == s[..k];
  }

  /** Trimming takes off white space at both ends and nothing else, and leaves none there. */
  lemma TrimIsExact(s: Text)
    ensures exists left, right :: s == left + TrimSpace(s) + right && IsWhite(left) && IsWhite(right)
    ensures IsTrimmed(TrimSpace(s))
  {
    hide SpaceRune, IsWhite, LeadingSpace, TrailingSpace, TrimLeft, TrimRight, IsTrimmed;
    var left := TrimLeftIsExact(s);
    var middle := TrimLeft(s);
    var right := TrimRightIsExact(middle);
    assert s == left + TrimSpace(s) + right;
    PrefixStartsAlike(middle, |TrimRight(middle)|);
    assert middle[..|TrimRight(middle)|] == TrimRight(middle);
    NoSpaceAtEnds(TrimSpace(s));
  }

  predicate Printable(c: Byte) { 0x21 <= c as int <= 0x7E }

  lemma SpaceIsNotPrintable(rune: Text)
    requires SpaceRune(rune)
    ensures forall i :: 0 <= i < |rune| ==> !Printable(rune[i])
  {
  }

  lemma {:induction false} WhiteIsNotPrintable(runes: seq<Text>)
    requires AreSpaces(runes)
    ensures forall i :: 0 <= i < |Flat(runes)| ==> !Printable(Flat(runes)[i])
  {
    hide SpaceRune;
    if runes != [] {
      SpaceIsNotPrintable(runes[0]);
      WhiteIsNotPrintable(runes[1..]);
    }
  }

  /** The white-space characters that a text starts with are found one by one, since none is a prefix of another. */
  lemma RuneIsFound(rune: Text, rest: Text)
    requires SpaceRune(rune)
    ensures LeadingSpace(rune + rest) == |rune| && (rune + rest)[|rune|..] == rest
  {
    var s := rune + rest;
    assert s[..|rune|] == rune;
    if |rune| >= 2 { assert s[..1] == [rune[0]]; }
    if |rune| == 3 { assert s[..2] == rune[..2]; }
  }

  lemma {:induction false} TrimLeftSkips(runes: seq<Text>, rest: Text)
    requires AreSpaces(runes) && LeadingSpace(rest) == 0
    ensures TrimLeft(Flat(runes) + rest) == rest
  {
    hide SpaceRune, LeadingSpace;
    if runes == [] {
      assert Flat(runes) + rest == rest;
    } else {
      assert Flat(runes) + rest == runes[0] + (Flat(runes[1..]) + rest);
      RuneIsFound(runes[0], Flat(runes[1..]) + rest);
      TrimLeftSkips(runes[1..], rest);
      SpaceIsSomething(runes[0]);
    }
  }

  lemma SpaceIsSomething(rune: Text)
    requires SpaceRune(rune)
    ensures rune != []
  {
  }

  lemma PrintableIsNoSpace(s: Text)
    requires s != [] && Printable(s[0])
    ensures LeadingSpace(s) == 0
  {
    forall k | 1 <= k <= |s| ensures !SpaceRune(s[..k]) {
      if SpaceRune(s[..k]) { SpaceIsNotPrintable(s[..k]); }
    }
  }

  /** The text is white space followed by something that starts with the mark. */
  ghost predicate StartsWith(s: Text, mark: Text) {
    exists white: Text :: IsWhite(white) && white + mark <= s
  }

  /** For a printable mark, a text starts with it after trimming exactly if it does so after some white space. */
  lemma TrimmedStartsIff(s: Text, mark: Text)
    requires mark != [] && forall i :: 0 <= i < |mark| ==> Printable(mark[i])
    ensures mark <= TrimSpace(s) <==> StartsWith(s, mark)
  {
    hide SpaceRune, LeadingSpace, TrailingSpace, TrimLeft, TrimRight, Printable;
    if mark <= TrimSpace(s) {
      var left := TrimLeftIsExact(s);
      TrimRightIsPrefix(TrimLeft(s));
      assert left + mark <= s;
    }
    if StartsWith(s, mark) {
      var white: Text :| IsWhite(white) && white + mark <= s;
      var runes: seq<Text> :| AreSpaces(runes) && Flat(runes) == white;
      var rest := s[|white|..];
      assert s == white + rest && mark <= rest;
      PrintableIsNoSpace(rest);
      TrimLeftSkips(runes, rest);
      MarkIsKept(rest, mark);
    }
  }

  lemma MarkIsKept(s: Text, mark: Text)
    requires mark <= s && forall i :: 0 <= i < |mark| ==> Printable(mark[i])
    ensures mark <= TrimRight(s)
  {
    hide SpaceRune, TrimRight, Printable;
    var right := TrimRightIsExact(s);
    var runes: seq<Text> :| AreSpaces(runes) && Flat(runes) == right;
    WhiteIsNotPrintable(runes);
    var n := |TrimRight(s)|;
    assert n < |s| ==> s[n] == right[0];
  }

  /** Trimming neither adds nor removes printable bytes. */
  lemma TrimKeepsPrintable(s: Text, c: Byte)
    requires Printable(c)
    ensures c in TrimSpace(s) <==> c in s
  {
    hide SpaceRune, TrimLeft, TrimRight, Printable, IsTrimmed;
    TrimIsExact(s);
    var left, right :| s == left + TrimSpace(s) + right && IsWhite(left) && IsWhite(right);
    var before: seq<Text> :| AreSpaces(before) && Flat(before) == left;
    var after: seq<Text> :| AreSpaces(after) && Flat(after) == right;
    WhiteIsNotPrintable(before);
    WhiteIsNotPrintable(after);
  }

  /** A text is blank exactly if it is white space. */
  lemma BlankIff(s: Text)
    ensures Blank(s) <==> IsWhite(s)
  {
    hide SpaceRune, LeadingSpace, TrimLeft, TrimRight, IsTrimmed;
    if Blank(s) {
      var left := TrimLeftIsExact(s);
      var right := TrimRightIsExact(TrimLeft(s));
      WhiteAppend(left, right);
      assert s == left + right;
    }
    if IsWhite(s) {
      var runes: seq<Text> :| AreSpaces(runes) && Flat(runes) == s;
      EmptyHasNoSpace();
      TrimLeftSkips(runes, []);
      assert Flat(runes) + [] == s;
    }
  }

  lemma EmptyHasNoSpace()
    ensures LeadingSpace([]) == 0 && TrimRight([]) == []
  {
  }

  predicate Ascii(s: Text) {
    forall i :: 0 <= i < |s| ==> s[i] as int < 0x80
  }

  /** Tab, line feed, vertical tab, form feed, carriage return and space. */
  predicate AsciiSpace(c: Byte) { c as int in {0x09, 0x0A, 0x0B, 0x0C, 0x0D, 0x20} }

  lemma AsciiRune(rune: Text)
    requires Ascii(rune)
    ensures SpaceRune(rune) <==> |rune| == 1 && AsciiSpace(rune[0])
  {
  }

  lemma AsciiLeadingSpace(s: Text)
    requires Ascii(s) && s != []
    ensures LeadingSpace(s) == if AsciiSpace(s[0]) then 1 else 0
  {
    var n := LeadingSpace(s);
    AsciiRune(s[..1]);
    AsciiRune(s[..n]);
    hide SpaceRune;
  }

  lemma AsciiTrailingSpace(s: Text)
    requires Ascii(s) && s != []
    ensures TrailingSpace(s) == if AsciiSpace(s[|s| - 1]) then 1 else 0
  {
    var n := TrailingSpace(s);
    AsciiRune(s[|s| - 1..]);
    AsciiRune(s[|s| - n..]);
    hide SpaceRune;
  }

  lemma {:induction false} AsciiTrimLeft(s: Text)
    requires Ascii(s)
    ensures TrimLeft(s) == [] <==> forall i :: 0 <= i < |s| ==> AsciiSpace(s[i])
    ensures TrimLeft(s) != [] ==> !AsciiSpace(TrimLeft(s)[0]) && Ascii(TrimLeft(s))
  {
    hide SpaceRune, LeadingSpace, AsciiSpace;
    if s != [] {
      AsciiLeadingSpace(s);
      if AsciiSpace(s[0]) { AsciiTrimLeft(s[1..]); }
    } else {
      EmptyHasNoSpace();
    }
  }

  lemma {:induction false} AsciiTrimRight(s: Text)
    requires Ascii(s)
    ensures TrimRight(s) == [] <==> forall i :: 0 <= i < |s| ==> AsciiSpace(s[i])
  {
    hide SpaceRune, TrailingSpace, AsciiSpace;
    if s != [] {
      AsciiTrailingSpace(s);
      if AsciiSpace(s[|s| - 1]) { AsciiTrimRight(s[..|s| - 1]); }
    } else {
      EmptyHasNoSpace();
    }
  }

  /** An ASCII text is blank exactly if it consists of the six ASCII white-space characters. */
  lemma AsciiBlankIff(s: Text)
    requires Ascii(s)
    ensures Blank(s) <==> forall i :: 0 <= i < |s| ==> AsciiSpace(s[i])
  {
    AsciiTrimLeft(s);
    AsciiTrimRight(TrimLeft(s));
    hide TrimLeft, TrimRight;
  }
}
