/** The text formatting of DialogueBox.initialiseLabelText: a character-by-character
    wrap pass that inserts line breaks at a 35-column limit, followed by grouping
    of the resulting lines into pages of three. */
module TextLayout {
  import opened JavaText

  /** The column limit the dialogue box is built with (its MAXCHARS field).
      The wrap pass below takes the limit as a parameter `width`. */
  const MAXCHARS: int := 35

  // ---------------------------------------------------------------------------
  // Wrap pass

  /** The loop variables of the wrap pass: the StringBuilder contents and the
      counters `lastSpace`, `index` and `totalIndex`. A `lastSpace` of 0 stands
      both for "no space seen" and for a space at position 0. */
  datatype WrapState = WrapState(out: string, lastSpace: int, index: int, totalIndex: int)

  const Start: WrapState := WrapState("", 0, 0, 0)

  /** What the loop keeps true: `totalIndex` never runs ahead of the output, and
      a recorded space lies strictly before `totalIndex`. */
  predicate Sane(st: WrapState)
  {
    && 0 <= st.lastSpace
    && 0 <= st.index
    && 0 <= st.totalIndex <= |st.out|
    && (st.lastSpace == 0 || st.lastSpace < st.totalIndex)
  }

  /** One iteration of the wrap loop on character c. */
  function Step(st: WrapState, c: char, width: int): (r: WrapState)
    requires Sane(st)
    ensures Sane(r)
    ensures |r.out| == |st.out| + 1
  {
    var index := if c == '\n' then 0 else st.index;
    if index >= width then
      if c == ' ' then
        // a space at the limit is emitted as the break itself
        st.(out := st.out + "\n", index := 0, totalIndex := st.totalIndex + 1)
      else if st.lastSpace == 0 || st.totalIndex - st.lastSpace >= width then
        // hard break: a newline is emitted and c itself is not
        st.(out := st.out + "\n", index := 0)
      else
        // word wrap: the recorded space becomes the break, then c is emitted
        st.(out := st.out[st.lastSpace := '\n'] + [c],
            index := st.totalIndex - st.lastSpace,
            totalIndex := st.totalIndex + 1)
    else
      st.(out := st.out + [c],
          lastSpace := if c == ' ' then st.totalIndex else st.lastSpace,
          index := index + 1,
          totalIndex := st.totalIndex + 1)
  }

  /** The loop state after the first n characters of text. The output keeps the
      input's length, and at every position holds either the input character or
      a line break. */
  function WrapPrefix(text: string, n: nat, width: int): (st: WrapState)
    requires n <= |text|
    ensures Sane(st)
    ensures |st.out| == n
  {
    if n == 0 then Start else Step(WrapPrefix(text, n - 1, width), text[n - 1], width)
  }

  /** One step only turns earlier characters into line breaks, and appends
      either c or a line break. */
  lemma StepChanges(st: WrapState, c: char, width: int)
    requires Sane(st)
    ensures var r := Step(st, c, width);
      && (forall k :: 0 <= k < |st.out| && r.out[k] != st.out[k] ==> r.out[k] == '\n')
      && (r.out[|st.out|] == c || r.out[|st.out|] == '\n')
      && (|st.out| > 0 ==> r.out[0] == st.out[0])
  {
  }

  /** The output keeps the input's length, and at every position holds either
      the input character or a line break; the first character is kept. */
  lemma {:induction false} WrapPrefixChars(text: string, n: nat, width: int)
    requires n <= |text|
    ensures var st := WrapPrefix(text, n, width);
      && (forall k :: 0 <= k < n ==> st.out[k] == text[k] || st.out[k] == '\n')
      && (n > 0 && width > 0 ==> st.out[0] == text[0])
  {
    if n > 0 {
      WrapPrefixChars(text, n - 1, width);
      StepChanges(WrapPrefix(text, n - 1, width), text[n - 1], width);
    }
  }

  /** The text after the wrap pass. */
  function Wrap(text: string, width: int): string
  {
    WrapPrefix(text, |text|, width).out
  }

  /** Rebuilding a string around a replaced character is an update in place. */
  lemma Splice(s: string, i: nat)
    requires i < |s|
    ensures s[..i] + "\n" + s[i + 1..] == s[i := '\n']
  {
  }

  /** The wrap loop of initialiseLabelText, over a StringBuilder-like sequence. */
  method WrapText(text: string, width: int) returns (wrapped: string)
    ensures wrapped == Wrap(text, width)
  {
    var newString: string := "";
    var lastSpace := 0;
    var index := 0;
    var totalIndex := 0;
    var i := 0;
    while i < |text|
      invariant 0 <= i <= |text|
      invariant WrapState(newString, lastSpace, index, totalIndex) == WrapPrefix(text, i, width)
    {
      var c := text[i];
      if c == '\n' {
        index := 0;
      }
      if index >= width {
        if c == ' ' {
          newString := newString + "\n";
          totalIndex := totalIndex + 1;
          index := 0;
        } else {
          if lastSpace == 0 || totalIndex - lastSpace >= width {
            newString := newString + "\n";
            index := 0;
          } else {
            Splice(newString, lastSpace);
            newString := newString[..lastSpace] + "\n" + newString[lastSpace + 1..];
            newString := newString + [c];
            index := totalIndex - lastSpace;
            totalIndex := totalIndex + 1;
          }
        }
      } else {
        newString := newString + [c];
        if c == ' ' {
          lastSpace := totalIndex;
        }
        index := index + 1;
        totalIndex := totalIndex + 1;
      }
      i := i + 1;
    }
    wrapped := newString;
  }

  /** The column counter as it would run with no limit: reset by '\n' and then
      incremented for every character, the '\n' included. */
  function Column(text: string, n: nat): nat
    requires n <= |text|
  {
    if n == 0 then 0 else (if text[n - 1] == '\n' then 0 else Column(text, n - 1)) + 1
  }

  /** Every character of text is reached while the column counter is below the limit. */
  predicate FitsWidth(text: string, width: int)
  {
    forall n :: 0 <= n < |text| && text[n] != '\n' ==> Column(text, n) < width
  }

  predicate FitsBefore(text: string, m: nat, width: int)
    requires m <= |text|
  {
    forall n :: 0 <= n < m && text[n] != '\n' ==> Column(text, n) < width
  }

  lemma {:induction false} CopiesWhileFitting(text: string, m: nat, width: int)
    requires width > 0 && m <= |text| && FitsBefore(text, m, width)
    ensures var st := WrapPrefix(text, m, width);
      && st.out == text[..m] && st.index == Column(text, m) && st.totalIndex == m
      && (st.lastSpace == 0 || (st.lastSpace < m && text[st.lastSpace] == ' '))
  {
    if m > 0 {
      CopiesWhileFitting(text, m - 1, width);
      assert text[..m] == text[..m - 1] + [text[m - 1]];
    }
  }

  lemma {:induction false} BreakPersists(text: string, m: nat, m': nat, k: nat, width: int)
    requires k < m <= m' <= |text|
    requires WrapPrefix(text, m, width).out[k] == '\n'
    ensures WrapPrefix(text, m', width).out[k] == '\n'
    decreases m' - m
  {
    if m < m' {
      StepChanges(WrapPrefix(text, m, width), text[m], width);
      BreakPersists(text, m + 1, m', k, width);
    }
  }

  /** A character other than a line break reached at the limit puts a line
      break either at its own position or at the recorded space. */
  lemma OverflowStep(st: WrapState, c: char, width: int) returns (p: nat)
    requires Sane(st) && st.index >= width && c != '\n'
    ensures p == |st.out| || (c != ' ' && 0 < p == st.lastSpace < |st.out|)
    ensures Step(st, c, width).out[p] == '\n'
  {
    if c == ' ' || st.lastSpace == 0 || st.totalIndex - st.lastSpace >= width {
      p := |st.out|;
    } else {
      p := st.lastSpace;
    }
  }

  lemma OverflowBreak(text: string, n0: nat, width: int) returns (p: nat)
    requires n0 < |text| && text[n0] != '\n' && WrapPrefix(text, n0, width).index >= width
    ensures p == n0 || (text[n0] != ' ' && 0 < p == WrapPrefix(text, n0, width).lastSpace < n0)
    ensures Wrap(text, width)[p] == '\n'
  {
    p := OverflowStep(WrapPrefix(text, n0, width), text[n0], width);
    BreakPersists(text, n0 + 1, |text|, p, width);
  }

  /** The first character reached at the limit makes the output differ from the input. */
  lemma FirstOverflowChanges(text: string, n0: nat, width: int)
    requires width > 0 && n0 < |text| && FitsBefore(text, n0, width)
    requires text[n0] != '\n' && Column(text, n0) >= width
    ensures Wrap(text, width) != text
  {
    var st := WrapPrefix(text, n0, width);
    assert st.index >= width && (st.lastSpace == 0 || text[st.lastSpace] == ' ') by {
      CopiesWhileFitting(text, n0, width);
    }
    var p := OverflowBreak(text, n0, width);
    assert Wrap(text, width)[p] != text[p];
  }

  lemma {:induction false} OverflowChanges(text: string, m: nat, width: int)
    requires width > 0 && m <= |text| && FitsBefore(text, m, width) && !FitsWidth(text, width)
    ensures Wrap(text, width) != text
    decreases |text| - m
  {
    if m == |text| {
      assert false;
    } else if text[m] != '\n' && Column(text, m) >= width {
      FirstOverflowChanges(text, m, width);
    } else {
      FitsExtend(text, m, width);
      OverflowChanges(text, m + 1, width);
    }
  }

  lemma FitsExtend(text: string, m: nat, width: int)
    requires m < |text| && FitsBefore(text, m, width)
    requires text[m] == '\n' || Column(text, m) < width
    ensures FitsBefore(text, m + 1, width)
  {
  }

  /** The wrap pass leaves a text unchanged exactly when no character of it is
      reached with the column counter at the limit. */
  lemma WrapIdentityIff(text: string, width: int)
    requires width > 0
    ensures Wrap(text, width) == text <==> FitsWidth(text, width)
  {
    if FitsWidth(text, width) {
      CopiesWhileFitting(text, |text|, width);
      assert text[..|text|] == text;
    } else {
      OverflowChanges(text, 0, width);
    }
  }

  predicate PlainWord(text: string)
  {
    forall i :: 0 <= i < |text| ==> text[i] != ' ' && text[i] != '\n'
  }

  /** The text with every 36th character replaced by a line break. */
  function HardBroken(text: string): (r: string)
    ensures |r| == |text|
  {
    seq(|text|, k requires 0 <= k < |text| => if k % (MAXCHARS + 1) == MAXCHARS then '\n' else text[k])
  }

  lemma CountStep(m: nat)
    requires m > 0
    ensures (m - 1) % (MAXCHARS + 1) == MAXCHARS ==>
      m % (MAXCHARS + 1) == 0 && m / (MAXCHARS + 1) == (m - 1) / (MAXCHARS + 1) + 1
    ensures (m - 1) % (MAXCHARS + 1) != MAXCHARS ==>
      m % (MAXCHARS + 1) == (m - 1) % (MAXCHARS + 1) + 1 && m / (MAXCHARS + 1) == (m - 1) / (MAXCHARS + 1)
  {
    var q, r := (m - 1) / 36, (m - 1) % 36;
    assert m - 1 == 36 * q + r && 0 <= r < 36;
    if r == 35 {
      assert m == 36 * (q + 1);
    } else {
      assert m == 36 * q + (r + 1);
    }
  }

  lemma HardBrokenSnoc(text: string, m: nat)
    requires 0 < m <= |text|
    ensures HardBroken(text[..m]) == HardBroken(text[..m - 1])
      + [if (m - 1) % (MAXCHARS + 1) == MAXCHARS then '\n' else text[m - 1]]
  {
  }

  lemma {:induction false} HardBreaksPrefix(text: string, m: nat)
    requires m <= |text| && PlainWord(text)
    ensures var st := WrapPrefix(text, m, MAXCHARS);
      && st.out == HardBroken(text[..m]) && st.lastSpace == 0
      && st.index == m % (MAXCHARS + 1) && st.totalIndex == m - m / (MAXCHARS + 1)
  {
    if m > 0 {
      HardBreaksPrefix(text, m - 1);
      CountStep(m);
      HardBrokenSnoc(text, m);
      var prev := WrapPrefix(text, m - 1, MAXCHARS);
      assert WrapPrefix(text, m, MAXCHARS) == Step(prev, text[m - 1], MAXCHARS);
    }
  }

  /** A text with no space and no line break is cut at the column limit: every
      36th character is replaced by the break, so the character that reached the
      limit is lost. */
  lemma HardBreakDropsCharacter(text: string)
    requires PlainWord(text)
    ensures Wrap(text, MAXCHARS) == HardBroken(text)
  {
    HardBreaksPrefix(text, |text|);
    assert text[..|text|] == text;
  }

  // ---------------------------------------------------------------------------
  // Paging

  /** Pieces grouped three to a page: a full page joins three pieces with '\n';
      a final partial page is its one or two pieces each followed by '\n'. */
  function Group(pieces: seq<string>): (pages: seq<string>)
  {
    if |pieces| >= 3 then [pieces[0] + "\n" + pieces[1] + "\n" + pieces[2]] + Group(pieces[3..])
    else if |pieces| == 2 then [pieces[0] + "\n" + pieces[1] + "\n"]
    else if |pieces| == 1 then [pieces[0] + "\n"]
    else []
  }

  /** There is one page per three pieces, rounded up, and no page is empty. */
  lemma {:induction false} GroupShape(pieces: seq<string>)
    ensures |Group(pieces)| == (|pieces| + 2) / 3
    ensures forall i :: 0 <= i < |Group(pieces)| ==> |Group(pieces)[i]| > 0
    decreases |pieces|
  {
    if |pieces| >= 3 {
      GroupShape(pieces[3..]);
      var g := Group(pieces);
      forall i | 0 <= i < |g| ensures |g[i]| > 0 {
        if i > 0 { assert g[i] == Group(pieces[3..])[i - 1]; }
      }
    }
  }

  lemma {:induction false} GroupConcat(ps: seq<string>, qs: seq<string>, k: nat)
    requires |ps| == 3 * k
    ensures Group(ps + qs) == Group(ps) + Group(qs)
    decreases k
  {
    if k > 0 {
      GroupConcat(ps[3..], qs, k - 1);
      assert (ps + qs)[3..] == ps[3..] + qs;
    } else {
      assert ps + qs == qs;
    }
  }

  /** The page being built from the last `numBreaks` pieces. */
  function PartialPage(ps: seq<string>): string
  {
    if |ps| == 0 then "" else Group(ps)[0]
  }

  lemma PartialStep(ps: seq<string>, x: string)
    requires |ps| < 2
    ensures PartialPage(ps + [x]) == PartialPage(ps) + x + "\n"
  {
    if |ps| == 1 {
      assert ps + [x] == [ps[0], x];
    } else {
      assert ps + [x] == [x];
    }
  }

  lemma PageStep(ps: seq<string>, x: string)
    requires |ps| == 2
    ensures Group(ps + [x]) == [PartialPage(ps) + x]
  {
    assert ps + [x] == [ps[0], ps[1], x];
    assert (ps + [x])[3..] == [];
  }

  lemma GroupLoopStep(pieces: seq<string>, i: nat, nb: nat, k: nat)
    requires nb <= 2 && i == 3 * k + nb && i < |pieces|
    ensures nb == 2 ==>
      Group(pieces[..3 * k + 3]) == Group(pieces[..3 * k]) + [PartialPage(pieces[3 * k..i]) + pieces[i]]
    ensures nb < 2 ==> PartialPage(pieces[3 * k..i + 1]) == PartialPage(pieces[3 * k..i]) + pieces[i] + "\n"
  {
    var done, part, s := pieces[..3 * k], pieces[3 * k..i], pieces[i];
    assert pieces[3 * k..i + 1] == part + [s];
    if nb == 2 {
      PageStep(part, s);
      GroupConcat(done, part + [s], k);
      assert pieces[..i + 1] == done + (part + [s]);
    } else {
      PartialStep(part, s);
    }
  }

  lemma GroupSmall(rest: seq<string>)
    requires |rest| < 3
    ensures |rest| == 0 ==> Group(rest) == [] && PartialPage(rest) == ""
    ensures |rest| > 0 ==> Group(rest) == [PartialPage(rest)] && PartialPage(rest) != ""
  {
  }

  lemma GroupLoopEnd(pieces: seq<string>, nb: nat, k: nat)
    requires nb <= 2 && |pieces| == 3 * k + nb
    ensures Group(pieces) == Group(pieces[..3 * k]) + Group(pieces[3 * k..])
  {
    var done, rest := pieces[..3 * k], pieces[3 * k..];
    assert done + rest == pieces;
    GroupConcat(done, rest, k);
  }

  /** The grouping loop of initialiseLabelText. */
  method GroupPages(pieces: seq<string>) returns (pages: seq<string>)
    ensures pages == Group(pieces)
  {
    pages := [];
    var numBreaks := 0;
    var subString := "";
    var i := 0;
    ghost var k := 0;
    while i < |pieces|
      invariant 0 <= i <= |pieces|
      invariant numBreaks <= 2 && i == 3 * k + numBreaks
      invariant pages == Group(pieces[..3 * k])
      invariant subString == PartialPage(pieces[3 * k..i])
    {
      var s := pieces[i];
      GroupLoopStep(pieces, i, numBreaks, k);
      if numBreaks == 2 {
        subString := subString + s;
        pages := pages + [subString];
        subString := "";
        numBreaks := 0;
        k := k + 1;
      } else {
        subString := subString + s + "\n";
        numBreaks := numBreaks + 1;
      }
      i := i + 1;
    }
    GroupLoopEnd(pieces, numBreaks, k);
    assert pieces[3 * k..i] == pieces[3 * k..];
    GroupSmall(pieces[3 * k..]);
    if subString != "" {
      pages := pages + [subString];
    }
  }

  lemma {:induction false} JoinSnoc(ps: seq<string>, x: string, sep: char)
    requires |ps| >= 1
    ensures Join(ps + [x], sep) == Join(ps, sep) + [sep] + x
    decreases |ps|
  {
    var p, tail := ps[0], ps[1..];
    if |ps| == 1 {
      assert ps + [x] == [p] + [x];
      JoinCons(p, [x], sep);
    } else {
      assert ps + [x] == [p] + (tail + [x]);
      assert ps == [p] + tail;
      var jt := Join(tail, sep);
      var jtx := Join(tail + [x], sep);
      assert jtx == jt + [sep] + x by { JoinSnoc(tail, x, sep); }
      assert Join([p] + (tail + [x]), sep) == p + [sep] + jtx by { JoinCons(p, tail + [x], sep); }
      assert Join([p] + tail, sep) == p + [sep] + jt by { JoinCons(p, tail, sep); }
      assert p + [sep] + (jt + [sep] + x) == p + [sep] + jt + [sep] + x;
    }
  }

  lemma JoinCons(x: string, ps: seq<string>, sep: char)
    requires |ps| >= 1
    ensures Join([x] + ps, sep) == x + [sep] + Join(ps, sep)
  {
    assert ([x] + ps)[1..] == ps;
  }

  lemma NewlineAssoc(a: string, b: string, c: string, t: string)
    ensures a + "\n" + (b + "\n" + (c + "\n" + t)) == a + "\n" + b + "\n" + c + "\n" + t
  {
  }

  lemma JoinThreeThen(a: string, b: string, c: string, rest: seq<string>)
    requires |rest| > 0
    ensures Join([a, b, c] + rest, '\n') == a + "\n" + b + "\n" + c + "\n" + Join(rest, '\n')
  {
    var tail := [c] + rest;
    var mid := [b] + tail;
    assert [a] + mid == [a, b, c] + rest;
    var jr := Join(rest, '\n');
    var jt := Join(tail, '\n');
    assert jt == c + "\n" + jr by { JoinCons(c, rest, '\n'); }
    var jm := Join(mid, '\n');
    assert jm == b + "\n" + jt by { JoinCons(b, tail, '\n'); }
    assert Join([a] + mid, '\n') == a + "\n" + jm by { JoinCons(a, mid, '\n'); }
    NewlineAssoc(a, b, c, jr);
  }

  lemma JoinThree(a: string, b: string, c: string)
    ensures Join([a, b, c], '\n') == a + "\n" + b + "\n" + c
  {
    assert Join([c], '\n') == c;
    JoinCons(b, [c], '\n');
    assert [b] + [c] == [b, c];
    JoinCons(a, [b, c], '\n');
    assert [a] + [b, c] == [a, b, c];
  }

  /** The first three pieces joined, then the rest. */
  lemma JoinFirstThree(pieces: seq<string>)
    requires |pieces| >= 3
    ensures |pieces| == 3 ==> Join(pieces, '\n') == pieces[0] + "\n" + pieces[1] + "\n" + pieces[2]
    ensures |pieces| > 3 ==>
      Join(pieces, '\n') == pieces[0] + "\n" + pieces[1] + "\n" + pieces[2] + "\n" + Join(pieces[3..], '\n')
  {
    var a, b, c, rest := pieces[0], pieces[1], pieces[2], pieces[3..];
    assert pieces == [a, b, c] + rest;
    if |rest| > 0 {
      JoinThreeThen(a, b, c, rest);
    } else {
      assert pieces == [a, b, c];
      JoinThree(a, b, c);
    }
  }

  /** Read in order, the pages spell out the pieces separated by line breaks,
      with one extra break after a final partial page. */
  lemma {:induction false} GroupJoin(pieces: seq<string>)
    ensures Join(Group(pieces), '\n') == Join(pieces, '\n') + (if |pieces| % 3 == 0 then "" else "\n")
    decreases |pieces|
  {
    if |pieces| >= 3 {
      var rest := pieces[3..];
      var page := pieces[0] + "\n" + pieces[1] + "\n" + pieces[2];
      assert Group(pieces) == [page] + Group(rest);
      JoinFirstThree(pieces);
      assert |pieces| % 3 == |rest| % 3;
      if |rest| > 0 {
        GroupJoin(rest);
        GroupShape(rest);
        JoinCons(page, Group(rest), '\n');
      }
    } else if |pieces| == 2 {
      JoinCons(pieces[0], [pieces[1]], '\n');
      assert pieces == [pieces[0]] + [pieces[1]];
    }
  }

  /** Splitting the pages' text at its line breaks gives back exactly the pieces
      (plus the empty field after a partial page's closing break). */
  lemma PagesReproducePieces(pieces: seq<string>)
    requires |pieces| >= 1 && NoneContain(pieces, '\n')
    ensures |pieces| % 3 == 0 ==> Pieces(Join(Group(pieces), '\n'), '\n') == pieces
    ensures |pieces| % 3 != 0 ==> Pieces(Join(Group(pieces), '\n'), '\n') == pieces + [""]
  {
    GroupJoin(pieces);
    if |pieces| % 3 == 0 {
      assert Join(Group(pieces), '\n') == Join(pieces, '\n');
      PiecesJoin(pieces, '\n');
    } else {
      var ext := pieces + [""];
      assert Join(Group(pieces), '\n') == Join(ext, '\n') by {
        JoinSnoc(pieces, "", '\n');
      }
      assert NoneContain(ext, '\n') by {
        forall i | 0 <= i < |ext| ensures '\n' !in ext[i] {
          if i < |pieces| { assert ext[i] == pieces[i]; }
        }
      }
      PiecesJoin(ext, '\n');
    }
  }

  /** The pages initialiseLabelText stores for a text. */
  function Paginate(text: string, width: int): seq<string>
  {
    Group(Split(Wrap(text, width), '\n'))
  }

  /** initialiseLabelText reads page 0, so a text is only displayable when it yields a page. */
  predicate Displayable(text: string, width: int)
  {
    |Paginate(text, width)| > 0
  }

  /** A text yields no page exactly when the wrap pass turns it into nothing but
      line breaks ("\n" is such a text). */
  lemma DisplayableIff(text: string, width: int)
    ensures Displayable(text, width) <==> !(Wrap(text, width) != "" && AllChar(Wrap(text, width), '\n'))
  {
    SplitEmptyIff(Wrap(text, width), '\n');
  }

  /** Every text that is empty or does not start with a line break yields a page. */
  lemma StartsDisplayable(text: string, width: int)
    requires width > 0 && (text == "" || text[0] != '\n')
    ensures Displayable(text, width)
  {
    var w := Wrap(text, width);
    WrapPrefixChars(text, |text|, width);
    SplitNonEmpty(w, '\n');
  }
}
