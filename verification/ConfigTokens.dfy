/** The configuration reader (DisplayManagerConfig): Split, IsNumber and the reading of number lists. */
module ConfigTokens {
  import opened DmTypes

  // ---------------------------------------------------------------- finding a pattern

  predicate OccursAt(s: string, p: string, i: nat) {
    i + |p| <= |s| && s[i..i + |p|] == p
  }

  /** The first occurrence at i or later. */
  function Find(s: string, p: string, i: nat): (k: Option<nat>)
    ensures k.Some? ==> i <= k.value && OccursAt(s, p, k.value) && forall j :: i <= j < k.value ==> !OccursAt(s, p, j)
    ensures k.None? ==> forall j :: i <= j ==> !OccursAt(s, p, j)
    decreases |s| - i
  {
    if i + |p| > |s| then None
    else if OccursAt(s, p, i) then Some(i)
    else Find(s, p, i + 1)
  }

  // ---------------------------------------------------------------- splitting

  /** The pieces between the occurrences of p that a scan of s from position i meets. */
  function Pieces(s: string, p: string, i: nat): seq<string>
    requires p != [] && i <= |s|
    decreases |s| - i
  {
    match Find(s, p, i)
    case None => []
    case Some(k) => [s[i..k]] + Pieces(s, p, k + |p|)
  }

  /** What the scan leaves over after the last occurrence. */
  function Rest(s: string, p: string, i: nat): string
    requires p != [] && i <= |s|
    decreases |s| - i
  {
    match Find(s, p, i)
    case None => s[i..]
    case Some(k) => Rest(s, p, k + |p|)
  }

  lemma ScanAt(s: string, p: string, i: nat)
    requires p != [] && i <= |s|
    ensures match Find(s, p, i)
            case None => Pieces(s, p, i) == [] && Rest(s, p, i) == s[i..]
            case Some(k) => Pieces(s, p, i) == [s[i..k]] + Pieces(s, p, k + |p|) && Rest(s, p, i) == Rest(s, p, k + |p|)
  {}

  lemma NothingAtEnd(s: string, p: string)
    requires p != []
    ensures Find(s, p, |s|) == None
  {}

  /** On an empty pattern and a text that is not empty the loop of the source has no end. */
  method Split(str: string, pattern: string) returns (result: seq<string>)
    requires pattern != "" || str == ""
    ensures result == if pattern == "" then [] else Pieces(str + pattern, pattern, 0)
  {
    hide Pieces, Find;
    var s := str + pattern;
    result := [];
    var i := 0;
    while i < |s|
      invariant i <= |s|
      invariant if pattern == "" then result == [] else result + Pieces(s, pattern, i) == Pieces(s, pattern, 0)
      decreases |s| - i
    {
      ScanAt(s, pattern, i);
      var position := Find(s, pattern, i);
      if position.Some? {
        result := result + [s[i..position.value]];
        i := position.value + |pattern| - 1;
      } else {
        NothingFromHere(s, pattern, i);
      }
      i := i + 1;
    }
    if pattern != "" {
      NothingAtEnd(s, pattern);
      ScanAt(s, pattern, i);
    }
  }

  /** The empty pattern is found where the search starts, so that the scan, which goes on behind what it found, stays
      where it is. */
  lemma EmptyPatternMakesNoProgress(s: string, i: nat)
    requires i < |s|
    ensures Find(s, "", i) == Some(i) && i + |""| == i
  {}

  /** Once nothing is found the scan finds nothing further on either. */
  lemma NothingFromHere(s: string, p: string, i: nat)
    requires p != [] && i < |s| && Find(s, p, i).None?
    ensures Pieces(s, p, i) == [] == Pieces(s, p, i + 1)
  {}

  /** Every piece followed by the pattern. */
  function Terminated(pieces: seq<string>, p: string): string {
    if pieces == [] then "" else pieces[0] + p + Terminated(pieces[1..], p)
  }

  function Join(pieces: seq<string>, p: string): string {
    if pieces == [] then ""
    else if |pieces| == 1 then pieces[0]
    else pieces[0] + p + Join(pieces[1..], p)
  }

  lemma {:induction false} TerminatedIsJoin(pieces: seq<string>, p: string)
    requires pieces != []
    ensures Terminated(pieces, p) == Join(pieces, p) + p
  {
    if |pieces| > 1 {
      TerminatedIsJoin(pieces[1..], p);
    } else {
      assert Terminated(pieces[1..], p) == "";
    }
  }

  ghost predicate FreeOf(piece: string, p: string) {
    forall j :: 0 <= j ==> !OccursAt(piece, p, j)
  }

  /** The slice up to the first occurrence, or to the end if there is none, is free of the pattern. */
  lemma FreeUpToFind(s: string, p: string, i: nat)
    requires p != [] && i <= |s|
    ensures FreeOf(s[i..match Find(s, p, i) case None => |s| case Some(k) => k], p)
  {
    var k := match Find(s, p, i) case None => |s| case Some(k) => k;
    forall j | 0 <= j ensures !OccursAt(s[i..k], p, j) {
      OccurrenceInSlice(s, p, i, k, j);
    }
  }

  lemma {:induction false} ScanCoversTheText(s: string, p: string, i: nat)
    requires p != [] && i <= |s|
    ensures Terminated(Pieces(s, p, i), p) + Rest(s, p, i) == s[i..]
    ensures FreeOf(Rest(s, p, i), p)
    ensures forall m :: 0 <= m < |Pieces(s, p, i)| ==> FreeOf(Pieces(s, p, i)[m], p)
    decreases |s| - i
  {
    hide FreeOf, Pieces, Rest, Terminated, Find;
    FreeUpToFind(s, p, i);
    ScanAt(s, p, i);
    match Find(s, p, i)
    case None =>
      assert s[i..|s|] == s[i..];
      TerminatedCons("", [], p);
    case Some(k) =>
      var next := k + |p|;
      ScanCoversTheText(s, p, next);
      assert s[i..] == s[i..k] + p + s[next..] by {
        assert s[k..next] == p;
      }
      TerminatedCons(s[i..k], Pieces(s, p, next), p);
  }

  lemma TerminatedCons(first: string, others: seq<string>, p: string)
    ensures Terminated([], p) == ""
    ensures Terminated([first] + others, p) == first + p + Terminated(others, p)
  {
    assert ([first] + others)[1..] == others;
  }

  lemma OccurrenceInSlice(s: string, p: string, i: nat, k: nat, j: nat)
    requires i <= k <= |s|
    ensures OccursAt(s[i..k], p, j) ==> OccursAt(s, p, i + j) && i + j + |p| <= k
  {
    if OccursAt(s[i..k], p, j) {
      var piece := s[i..k];
      assert piece[j..j + |p|] == p && i + j + |p| <= k;
      forall x | 0 <= x < |p| ensures s[i + j + x] == p[x] {
        assert piece[j..j + |p|][x] == piece[j + x];
      }
      assert s[i + j..i + j + |p|] == p;
    }
  }

  /** The appended pattern is met, or an occurrence that overlaps it: less than a pattern is left over. */
  lemma {:induction false} LittleIsLeft(str: string, p: string, i: nat)
    requires p != [] && i <= |str|
    ensures |Rest(str + p, p, i)| < |p| && Pieces(str + p, p, i) != []
    decreases |str| - i
  {
    var s := str + p;
    assert OccursAt(s, p, |str|);
    var k := Find(s, p, i);
    if k.value + |p| <= |str| {
      LittleIsLeft(str, p, k.value + |p|);
    } else {
      assert Find(s, p, k.value + |p|).None?;
    }
  }

  /** For any pattern: no piece contains it, and joining the pieces gives the text back exactly when the scan leaves
      nothing over, that is when the pattern appended to the text is itself the last one met. */
  lemma JoinUndoesSplit(str: string, p: string)
    requires p != []
    ensures var pieces := Pieces(str + p, p, 0);
            && pieces != []
            && (forall m :: 0 <= m < |pieces| ==> FreeOf(pieces[m], p))
            && (Join(pieces, p) == str <==> Rest(str + p, p, 0) == "")
  {
    var s, pieces, rest := str + p, Pieces(str + p, p, 0), Rest(str + p, p, 0);
    ScanCoversTheText(s, p, 0);
    LittleIsLeft(str, p, 0);
    TerminatedIsJoin(pieces, p);
    assert s[0..] == s;
    assert |Join(pieces, p)| + |p| + |rest| == |str| + |p|;
    if rest == "" {
      assert Join(pieces, p) + p + rest == Join(pieces, p) + p;
      assert Join(pieces, p) == s[..|str|];
    }
  }

  /** The pattern does not end as it begins. */
  ghost predicate Borderless(p: string) {
    forall n :: 0 < n < |p| ==> p[..n] != p[|p| - n..]
  }

  /** An occurrence that reaches into the appended pattern makes a border of the pattern. */
  lemma OverlapIsBorder(str: string, p: string, k: nat)
    requires k < |str| < k + |p| && OccursAt(str + p, p, k)
    ensures var n := k + |p| - |str|;
            0 < n < |p| && p[..n] == p[|p| - n..]
  {
    var s, n := str + p, k + |p| - |str|;
    assert p[..n] == s[|str|..k + |p|] == s[k..k + |p|][|p| - n..];
  }

  lemma {:induction false} NothingIsLeft(str: string, p: string, i: nat)
    requires p != [] && Borderless(p) && i <= |str|
    ensures Rest(str + p, p, i) == ""
    decreases |str| - i
  {
    hide Borderless, Rest, Find;
    var s := str + p;
    assert OccursAt(s, p, |str|);
    ScanAt(s, p, i);
    var k := Find(s, p, i).value;
    if k + |p| <= |str| {
      NothingIsLeft(str, p, k + |p|);
    } else if k == |str| {
      NothingAtEnd(s, p);
      ScanAt(s, p, |s|);
    } else {
      OverlapIsBorder(str, p, k);
      NoBorder(p, k + |p| - |str|);
    }
  }

  lemma NoBorder(p: string, n: nat)
    requires Borderless(p) && 0 < n < |p|
    ensures p[..n] != p[|p| - n..]
  {}

  /** A border loses the text in front of it: pattern and appended pattern overlap there. */
  lemma BorderLosesText(p: string, n: nat)
    requires 0 < n < |p| && p[..n] == p[|p| - n..]
    ensures var str := p[..|p| - n];
            Pieces(str + p, p, 0) == [""] && Join(Pieces(str + p, p, 0), p) != str
  {
    var str := p[..|p| - n];
    var s := str + p;
    assert s[..|p|] == str + p[..n] == p;
    assert Find(s, p, 0) == Some(0);
    assert Find(s, p, |p|) == None;
    assert Pieces(s, p, |p|) == [];
    assert Pieces(s, p, 0) == [s[0..0]] + Pieces(s, p, |p|);
  }

  /** Every text comes back from its pieces exactly when the pattern has no border. */
  lemma JoinUndoesSplitExactly(p: string)
    requires p != []
    ensures (forall str :: Join(Pieces(str + p, p, 0), p) == str) <==> Borderless(p)
  {
    hide Pieces, Join, Rest, FreeOf;
    if Borderless(p) {
      forall str ensures Join(Pieces(str + p, p, 0), p) == str {
        NothingIsLeft(str, p, 0);
        JoinUndoesSplit(str, p);
      }
    } else {
      var n :| 0 < n < |p| && p[..n] == p[|p| - n..];
      BorderLosesText(p, n);
      var str := p[..|p| - n];
      assert Join(Pieces(str + p, p, 0), p) != str;
    }
  }

  /** Two characters are enough for a text that is not given back. */
  lemma SplitCanLoseTheEnd()
    ensures Join(Pieces("xa" + "aa", "aa", 0), "aa") != "xa"
  {
    var s := "xa" + "aa";
    assert s == "xaaa";
    assert OccursAt(s, "aa", 1) && !OccursAt(s, "aa", 0);
    assert Find(s, "aa", 0) == Some(1);
    assert Find(s, "aa", 3) == None;
    assert Pieces(s, "aa", 3) == [];
    assert Pieces(s, "aa", 0) == [s[0..1]] + Pieces(s, "aa", 3);
    assert |Pieces(s, "aa", 0)| == 1 && Pieces(s, "aa", 0)[0] == "x";
  }

  function Count(s: string, c: char): nat {
    if s == "" then 0 else (if s[0] == c then 1 else 0) + Count(s[1..], c)
  }

  lemma {:induction false} CountConcat(a: string, b: string, c: char)
    ensures Count(a + b, c) == Count(a, c) + Count(b, c)
  {
    if a == "" {
      assert a + b == b;
    } else {
      assert (a + b)[1..] == a[1..] + b;
      CountConcat(a[1..], b, c);
    }
  }

  lemma {:induction false} CountZero(s: string, c: char)
    requires c !in s
    ensures Count(s, c) == 0
  {
    if s != "" {
      CountZero(s[1..], c);
    }
  }

  lemma FreeOfChar(piece: string, c: char)
    requires FreeOf(piece, [c])
    ensures c !in piece
  {
    if c in piece {
      var j :| 0 <= j < |piece| && piece[j] == c;
      assert OccursAt(piece, [c], j);
      assert false;
    }
  }

  lemma {:induction false} CountTerminated(pieces: seq<string>, c: char)
    requires forall m :: 0 <= m < |pieces| ==> c !in pieces[m]
    ensures Count(Terminated(pieces, [c]), c) == |pieces|
  {
    if pieces != [] {
      CountTerminated(pieces[1..], c);
      CountZero(pieces[0], c);
      CountConcat(pieces[0], [c], c);
      CountConcat(pieces[0] + [c], Terminated(pieces[1..], [c]), c);
    }
  }

  /** For a one-character separator Split and Join are inverse, and there is one piece more than separators. */
  lemma SplitByOneCharacter(str: string, c: char)
    ensures var pieces := Pieces(str + [c], [c], 0);
            && Join(pieces, [c]) == str
            && |pieces| == Count(str, c) + 1
            && forall m :: 0 <= m < |pieces| ==> c !in pieces[m]
  {
    var p, pieces := [c], Pieces(str + [c], [c], 0);
    LittleIsLeft(str, p, 0);
    JoinUndoesSplit(str, p);
    forall m | 0 <= m < |pieces| ensures c !in pieces[m] {
      FreeOfChar(pieces[m], c);
    }
    TerminatedIsJoin(pieces, p);
    CountTerminated(pieces, c);
    CountConcat(str, p, c);
  }

  /** Splitting undoes joining: pieces without the separator come back. */
  lemma {:induction false} SplitUndoesJoin(before: string, pieces: seq<string>, c: char)
    requires forall m :: 0 <= m < |pieces| ==> c !in pieces[m]
    ensures Pieces(before + Terminated(pieces, [c]), [c], |before|) == pieces
    decreases |pieces|
  {
    hide *;
    var s := before + Terminated(pieces, [c]);
    ScanAt(s, [c], |before|);
    if pieces != [] {
      var first, others := pieces[0], Terminated(pieces[1..], [c]);
      var longer := before + (first + [c]);
      assert pieces == [first] + pieces[1..];
      TerminatedCons(first, pieces[1..], [c]);
      assert s == before + first + [c] + others == longer + others;
      SplitUndoesJoin(longer, pieces[1..], c);
      FindSeparator(before, first, c, others);
      assert s[|before|..|before| + |first|] == first;
    } else {
      TerminatedCons("", [], [c]);
      assert s == before;
      NothingAtEnd(s, [c]);
    }
  }

  lemma FindSeparator(before: string, piece: string, c: char, after: string)
    requires c !in piece
    ensures Find(before + piece + [c] + after, [c], |before|) == Some(|before| + |piece|)
  {
    var s, k := before + piece + [c] + after, |before| + |piece|;
    assert s[k] == c && OccursAt(s, [c], k);
    forall j | |before| <= j < k ensures !OccursAt(s, [c], j) {
      assert s[j] == piece[j - |before|];
      assert s[j..j + 1] == [s[j]];
    }
  }

  // ---------------------------------------------------------------- numbers

  predicate IsDigit(c: char) {
    '0' <= c <= '9'
  }

  predicate AllDigits(s: string) {
    forall i :: 0 <= i < |s| ==> IsDigit(s[i])
  }

  /** True of the empty string as well. */
  method IsNumber(s: string) returns (ok: bool)
    ensures ok <==> forall i :: 0 <= i < |s| ==> s[i] in "0123456789"
    ensures ok == AllDigits(s)
  {
    var i := 0;
    while i < |s|
      invariant i <= |s| && forall j :: 0 <= j < i ==> IsDigit(s[j])
    {
      if s[i] < '0' || s[i] > '9' {
        return false;
      }
      i := i + 1;
    }
    return true;
  }

  function Value(s: string): nat
    requires AllDigits(s)
  {
    if s == "" then 0 else Value(s[..|s| - 1]) * 10 + (s[|s| - 1] as int - '0' as int)
  }

  /** std::stoi on digits: it throws on the empty string and beyond the largest int. */
  function Stoi(s: string): Option<nat>
    requires AllDigits(s)
  {
    if s == "" || Value(s) > INT32_MAX then None else Some(Value(s))
  }

  datatype Outcome = Unchanged | Stored(numbers: seq<nat>) | Throws

  /** Reading tokens in order: the first that is no number ends the reading without a result, the first number that
      std::stoi rejects throws. */
  function ReadTokens(tokens: seq<string>, numbers: seq<nat>): Outcome {
    if tokens == [] then Stored(numbers)
    else if !AllDigits(tokens[0]) then Unchanged
    else if Stoi(tokens[0]).None? then Throws
    else ReadTokens(tokens[1..], numbers + [Stoi(tokens[0]).value])
  }

  method ReadIntNumbers(text: string) returns (outcome: Outcome)
    ensures outcome == if text == "" then Unchanged else ReadTokens(Pieces(text + " ", " ", 0), [])
  {
    if text == "" {
      return Unchanged;
    }
    var numbers := Split(text, " ");
    var numbersVec := [];
    var i := 0;
    while i < |numbers|
      invariant i <= |numbers|
      invariant ReadTokens(numbers[i..], numbersVec) == ReadTokens(numbers, [])
    {
      var num := numbers[i];
      assert numbers[i..][1..] == numbers[i + 1..];
      var ok := IsNumber(num);
      if !ok {
        return Unchanged;
      }
      if Stoi(num).None? {
        return Throws;
      }
      numbersVec := numbersVec + [Stoi(num).value];
      i := i + 1;
    }
    return Stored(numbersVec);
  }

  predicate Readable(token: string) {
    AllDigits(token) && Stoi(token).Some?
  }

  /** A list is stored exactly when every token is a number that fits; and the reading throws exactly when the first
      token that does not is made of digits only, such as the empty token between two spaces. */
  lemma {:induction false} ReadTokensOutcome(tokens: seq<string>, numbers: seq<nat>)
    ensures ReadTokens(tokens, numbers).Stored? <==> forall i :: 0 <= i < |tokens| ==> Readable(tokens[i])
    ensures ReadTokens(tokens, numbers).Throws? <==>
              exists k :: 0 <= k < |tokens| && AllDigits(tokens[k]) && !Readable(tokens[k])
                && forall i :: 0 <= i < k ==> Readable(tokens[i])
    ensures ReadTokens(tokens, numbers).Stored? ==>
              var stored := ReadTokens(tokens, numbers).numbers;
              && |stored| == |numbers| + |tokens| && stored[..|numbers|] == numbers
              && forall i :: 0 <= i < |tokens| ==> Readable(tokens[i]) && stored[|numbers| + i] == Value(tokens[i])
  {
    if tokens != [] && Readable(tokens[0]) {
      var longer := numbers + [Value(tokens[0])];
      ReadTokensOutcome(tokens[1..], longer);
      assert forall i :: 0 <= i < |tokens| - 1 ==> tokens[1..][i] == tokens[i + 1];
      if ReadTokens(tokens, numbers).Throws? {
        var k :| 0 <= k < |tokens| - 1 && AllDigits(tokens[1..][k]) && !Readable(tokens[1..][k])
                 && forall i :: 0 <= i < k ==> Readable(tokens[1..][i]);
        forall i | 0 <= i < k + 1 ensures Readable(tokens[i]) {
          if i > 0 {
            assert Readable(tokens[1..][i - 1]);
          }
        }
        assert !Readable(tokens[k + 1]);
      } else if exists k :: 0 <= k < |tokens| && AllDigits(tokens[k]) && !Readable(tokens[k])
                  && forall i :: 0 <= i < k ==> Readable(tokens[i]) {
        var k :| 0 <= k < |tokens| && AllDigits(tokens[k]) && !Readable(tokens[k])
                 && forall i :: 0 <= i < k ==> Readable(tokens[i]);
        assert tokens[k] == tokens[1..][k - 1];
      }
    }
  }

  function Print(n: nat): (s: string)
    ensures s != "" && AllDigits(s)
  {
    var digit := ['0' + (n % 10) as char];
    if n < 10 then digit else Print(n / 10) + digit
  }

  lemma {:induction false} ValueUndoesPrint(n: nat)
    ensures Value(Print(n)) == n
  {
    var s := Print(n);
    if n < 10 {
      assert s[..0] == "";
    } else {
      ValueUndoesPrint(n / 10);
      assert s[..|s| - 1] == Print(n / 10);
    }
  }

  function PrintAll(ns: seq<nat>): (tokens: seq<string>)
    ensures |tokens| == |ns| && forall i :: 0 <= i < |ns| ==> tokens[i] == Print(ns[i])
  {
    seq(|ns|, i requires 0 <= i < |ns| => Print(ns[i]))
  }

  predicate AllInts(ns: seq<nat>) {
    forall i :: 0 <= i < |ns| ==> ns[i] < 0x8000_0000
  }

  lemma AllIntsTail(ns: seq<nat>)
    requires ns != []
    ensures AllInts(ns) <==> ns[0] < 0x8000_0000 && AllInts(ns[1..])
  {
    assert forall i :: 0 < i < |ns| ==> ns[i] == ns[1..][i - 1];
  }

  lemma PrintAllTail(ns: seq<nat>)
    requires ns != []
    ensures PrintAll(ns) != [] && PrintAll(ns)[0] == Print(ns[0]) && PrintAll(ns)[1..] == PrintAll(ns[1..])
  {
    hide PrintAll, Print;
  }

  lemma PrintedTokenIsRead(n: nat, tokens: seq<string>, numbers: seq<nat>)
    requires tokens != [] && tokens[0] == Print(n)
    ensures ReadTokens(tokens, numbers) ==
            if n < 0x8000_0000 then ReadTokens(tokens[1..], numbers + [n]) else Throws
  {
    hide Print, Value, AllDigits;
    ValueUndoesPrint(n);
  }

  lemma {:induction false} PrintedTokensAreRead(ns: seq<nat>, numbers: seq<nat>)
    ensures ReadTokens(PrintAll(ns), numbers) == if AllInts(ns) then Stored(numbers + ns) else Throws
  {
    if ns == [] {
      assert numbers + ns == numbers;
    } else {
      hide *;
      AllIntsTail(ns);
      PrintAllTail(ns);
      PrintedTokenIsRead(ns[0], PrintAll(ns), numbers);
      PrintedTokensAreRead(ns[1..], numbers + [ns[0]]);
      assert numbers + [ns[0]] + ns[1..] == numbers + ns;
    }
  }

  /** Any list of numbers that are not negative, printed with single spaces between them, is read back exactly if all
      of them are ints, and throws otherwise. */
  lemma PrintedListIsReadBack(ns: seq<nat>)
    requires ns != []
    ensures var text := Join(PrintAll(ns), " ");
            text != "" && ReadTokens(Pieces(text + " ", " ", 0), []) == if AllInts(ns) then Stored(ns) else Throws
  {
    var tokens := PrintAll(ns);
    assert forall i :: 0 <= i < |tokens| ==> ' ' !in tokens[i];
    hide *;
    PrintedListIsNotEmpty(ns);
    TerminatedIsJoin(tokens, " ");
    SplitUndoesJoin("", tokens, ' ');
    assert "" + Terminated(tokens, " ") == Join(tokens, " ") + " ";
    PrintedTokensAreRead(ns, []);
    assert [] + ns == ns;
  }

  lemma PrintedListIsNotEmpty(ns: seq<nat>)
    requires ns != []
    ensures Join(PrintAll(ns), " ") != ""
  {}

  /** The same list with one more space at its end ends in an exception: the empty last token passes IsNumber. */
  lemma TrailingSpaceThrows(ns: seq<nat>)
    requires ns != [] && forall i :: 0 <= i < |ns| ==> ns[i] <= INT32_MAX
    ensures ReadTokens(Pieces(Join(PrintAll(ns), " ") + " " + " ", " ", 0), []) == Throws
  {
    var tokens := PrintAll(ns) + [""];
    TerminatedIsJoin(PrintAll(ns), " ");
    TerminatedConcat(PrintAll(ns), [""], " ");
    SplitUndoesJoin("", tokens, ' ');
    assert "" + Terminated(tokens, " ") == Join(PrintAll(ns), " ") + " " + " " by {
      TerminatedCons("", [], " ");
      assert [""] + [] == [""];
    }
    forall i | 0 <= i < |ns| ensures Readable(tokens[i]) {
      ValueUndoesPrint(ns[i]);
    }
    assert AllDigits(tokens[|ns|]) && !Readable(tokens[|ns|]);
    ReadTokensOutcome(tokens, []);
  }

  lemma {:induction false} TerminatedConcat(a: seq<string>, b: seq<string>, p: string)
    ensures Terminated(a + b, p) == Terminated(a, p) + Terminated(b, p)
  {
    if a == [] {
      assert a + b == b;
    } else {
      assert (a + b)[1..] == a[1..] + b;
      TerminatedConcat(a[1..], b, p);
    }
  }
}
