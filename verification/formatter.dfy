/**
 * The server's response formatter (`formatResponse`): the model's text is split on
 * `**heading**` markers with the regular expression `\*\*(.+?)\*\*`, the pieces are
 * re-emitted as separated blocks, and every bullet marker "* " is moved to a line of its own.
 */
module Formatter {
  import opened Wrappers
  import opened Text

  // ---------------------------------------------------------------------------------------
  // The regular expression `\*\*(.+?)\*\*`
  // ---------------------------------------------------------------------------------------

  /** `\*\*(.+?)\*\*` matches `s` at position `q` with a capture of `k` characters,
      laziness aside: two stars, `k >= 1` characters none of which is a line terminator
      (what `.` accepts), two stars. */
  predicate IsMatch(s: string, q: nat, k: nat) {
    1 <= k && q + k + 4 <= |s| && s[q] == '*' && s[q + 1] == '*'
    && (forall j :: q + 2 <= j < q + 2 + k ==> !IsLineTerminator(s[j]))
    && s[q + 2 + k] == '*' && s[q + 3 + k] == '*'
  }

  /** The lazy quantifier `.+?` at work: the body already holds `k` characters; first try to
      close with `**`, and only if that fails take one more character. */
  function LazyClose(s: string, q: nat, k: nat): (r: Option<nat>)
    requires 1 <= k && q + 2 + k <= |s| && s[q] == '*' && s[q + 1] == '*'
    requires forall j :: q + 2 <= j < q + 2 + k ==> !IsLineTerminator(s[j])
    ensures r.Some? ==> k <= r.value && IsMatch(s, q, r.value)
    ensures r.Some? ==> forall k' :: k <= k' < r.value ==> !IsMatch(s, q, k')
    ensures r.None? ==> forall k' :: k <= k' ==> !IsMatch(s, q, k')
    decreases |s| - k
  {
    if q + k + 4 <= |s| && s[q + 2 + k] == '*' && s[q + 3 + k] == '*' then
      Some(k)
    else if q + 2 + k < |s| && !IsLineTerminator(s[q + 2 + k]) then
      LazyClose(s, q, k + 1)
    else
      assert forall k' :: k < k' ==> !IsMatch(s, q, k');
      None
  }

  /** The match of `\*\*(.+?)\*\*` that begins exactly at `q`, as the length of its capture:
      the shortest one, since `.+?` is lazy. */
  function MatchAt(s: string, q: nat): (r: Option<nat>)
    ensures r.Some? ==> IsMatch(s, q, r.value)
    ensures r.Some? ==> forall k :: 1 <= k < r.value ==> !IsMatch(s, q, k)
    ensures r.None? ==> forall k :: !IsMatch(s, q, k)
  {
    if q + 3 <= |s| && s[q] == '*' && s[q + 1] == '*' && !IsLineTerminator(s[q + 2]) then
      LazyClose(s, q, 1)
    else
      None
  }

  /** No match of the expression begins anywhere in `s`. */
  predicate NoMarkers(s: string) {
    forall q: nat :: q <= |s| ==> MatchAt(s, q).None?
  }

  /** A captured heading: non-empty, on one line. */
  predicate IsCapture(t: string) {
    t != [] && forall j :: 0 <= j < |t| ==> !IsLineTerminator(t[j])
  }

  // ---------------------------------------------------------------------------------------
  // `text.split` with `\*\*(.+?)\*\*`
  // ---------------------------------------------------------------------------------------

  /** The scan of `String.prototype.split` with a regular expression: the current piece
      starts at `p`, a match is tried at `q`; on a match at `q` the piece `s[p..q]` and the
      capture are emitted and scanning resumes after the match; the rest of `s` is the last piece. */
  function SplitFrom(s: string, p: nat, q: nat): (r: seq<string>)
    requires p <= q <= |s|
    ensures |r| % 2 == 1
    ensures forall i :: 0 <= i < |r| && i % 2 == 1 ==> IsCapture(r[i])
    decreases |s| - q
  {
    if q == |s| then
      [s[p..]]
    else
      match MatchAt(s, q)
      case None => SplitFrom(s, p, q + 1)
      case Some(k) =>
        var capture := s[q + 2..q + 2 + k];
        assert IsCapture(capture) by {
          forall j | 0 <= j < k ensures !IsLineTerminator(capture[j]) {
            assert capture[j] == s[q + 2 + j];
          }
        }
        var rest := SplitFrom(s, q + k + 4, q + k + 4);
        assert forall i :: 2 <= i < 2 + |rest| ==> ([s[p..q], capture] + rest)[i] == rest[i - 2];
        [s[p..q], capture] + rest
  }

  /** `s.split` with `\*\*(.+?)\*\*`: text pieces and captured headings alternate, starting and
      ending with a text piece. */
  function Split(s: string): (r: seq<string>)
    ensures |r| % 2 == 1
    ensures forall i :: 0 <= i < |r| && i % 2 == 1 ==> IsCapture(r[i])
  {
    SplitFrom(s, 0, 0)
  }

  /** Puts the `**` markers back around every captured heading. */
  function Unsplit(sections: seq<string>): string
    requires |sections| % 2 == 1
  {
    if |sections| == 1 then sections[0]
    else sections[0] + "**" + sections[1] + "**" + Unsplit(sections[2..])
  }

  lemma {:induction false} SplitFromRoundTrip(s: string, p: nat, q: nat)
    requires p <= q <= |s|
    ensures Unsplit(SplitFrom(s, p, q)) == s[p..]
    decreases |s| - q
  {
    if q == |s| {
      assert SplitFrom(s, p, q) == [s[p..]];
    } else {
      match MatchAt(s, q)
      case None =>
        SplitFromRoundTrip(s, p, q + 1);
        assert SplitFrom(s, p, q) == SplitFrom(s, p, q + 1);
      case Some(k) =>
        var e := q + k + 4;
        SplitFromRoundTrip(s, e, e);
        var r := SplitFrom(s, p, q);
        assert |r| >= 3 && r[0] == s[p..q] && r[1] == s[q + 2..q + 2 + k] && r[2..] == SplitFrom(s, e, e);
        var marked := "**" + s[q + 2..q + 2 + k] + "**";
        assert Unsplit(r) == s[p..q] + marked + s[e..];
        MatchPieces(s, q, k);
        SliceSplit(s, p, q, e);
        assert Unsplit(r) == s[p..];
    }
  }

  lemma SliceSplit(s: string, a: nat, b: nat, c: nat)
    requires a <= b <= c <= |s|
    ensures s[a..] == s[a..b] + s[b..c] + s[c..]
  {
    assert s[a..] == s[a..b] + s[b..];
    assert s[b..] == s[b..c] + s[c..];
  }

  /** A match is its capture between two pairs of stars. */
  lemma MatchPieces(s: string, q: nat, k: nat)
    requires IsMatch(s, q, k)
    ensures s[q..q + k + 4] == "**" + s[q + 2..q + 2 + k] + "**"
  {
    assert s[q..q + 2] == "**";
    assert s[q + 2 + k..q + k + 4] == "**";
    assert s[q..q + k + 4] == s[q..q + 2] + s[q + 2..q + 2 + k] + s[q + 2 + k..q + k + 4];
  }

  /** Splitting loses nothing: re-inserting the markers around the captures gives back the text. */
  lemma SplitRoundTrip(s: string)
    ensures Unsplit(Split(s)) == s
  {
    SplitFromRoundTrip(s, 0, 0);
  }

  /** Where piece `i` of a split begins in the text, counted from the start of the first piece:
      adjacent pieces are separated by the two stars of a marker. */
  function PieceStart(pieces: seq<string>, i: nat): nat
    requires i <= |pieces|
  {
    if i == 0 then 0 else |pieces[0]| + 2 + PieceStart(pieces[1..], i - 1)
  }

  /** No match of the expression begins inside text piece `i`, which starts at `p + PieceStart(pieces, i)`. */
  predicate NoMatchInPiece(s: string, p: nat, pieces: seq<string>, i: nat)
    requires i < |pieces|
  {
    forall j :: p + PieceStart(pieces, i) <= j < p + PieceStart(pieces, i) + |pieces[i]| ==> MatchAt(s, j).None?
  }

  /** Captured piece `i` is the capture of the lazy match at its opening `**`. */
  predicate CaptureMatches(s: string, p: nat, pieces: seq<string>, i: nat)
    requires i < |pieces|
  {
    2 <= p + PieceStart(pieces, i) && MatchAt(s, p + PieceStart(pieces, i) - 2) == Some(|pieces[i]|)
  }

  /** The split is leftmost and lazy: no match begins inside a text piece, and every capture is the
      shortest match at the position its markers occupy. */
  predicate LeftmostLazy(s: string, p: nat, pieces: seq<string>) {
    forall i :: 0 <= i < |pieces| ==>
      if i % 2 == 0 then NoMatchInPiece(s, p, pieces, i) else CaptureMatches(s, p, pieces, i)
  }

  lemma {:induction false} SplitFromLeftmostLazy(s: string, p: nat, q: nat)
    requires p <= q <= |s|
    requires forall j :: p <= j < q ==> MatchAt(s, j).None?
    ensures LeftmostLazy(s, p, SplitFrom(s, p, q))
    decreases |s| - q
  {
    var r := SplitFrom(s, p, q);
    if q == |s| {
      assert r == [s[p..]];
      assert NoMatchInPiece(s, p, r, 0);
    } else {
      match MatchAt(s, q)
      case None =>
        SplitFromLeftmostLazy(s, p, q + 1);
      case Some(k) =>
        var e := q + k + 4;
        var rest := SplitFrom(s, e, e);
        SplitFromLeftmostLazy(s, e, e);
        assert r == [s[p..q], s[q + 2..q + 2 + k]] + rest;
        LeftmostLazyAfterMatch(s, p, q, k, r, rest);
    }
  }

  /** A text piece without matches, then the lazy match at its end, then a leftmost and lazy split
      of the rest of the text: the whole split is leftmost and lazy. */
  lemma LeftmostLazyAfterMatch(s: string, p: nat, q: nat, k: nat, r: seq<string>, rest: seq<string>)
    requires p <= q && MatchAt(s, q) == Some(k)
    requires forall j :: p <= j < q ==> MatchAt(s, j).None?
    requires |r| == |rest| + 2 && |r[0]| == q - p && |r[1]| == k && r[2..] == rest
    requires LeftmostLazy(s, q + k + 4, rest)
    ensures LeftmostLazy(s, p, r)
  {
    var e := q + k + 4;
    assert r[1..][1..] == rest;
    assert NoMatchInPiece(s, p, r, 0);
    assert PieceStart(r, 1) == q - p + 2;
    assert CaptureMatches(s, p, r, 1);
    forall i | 2 <= i < |r|
      ensures if i % 2 == 0 then NoMatchInPiece(s, p, r, i) else CaptureMatches(s, p, r, i)
    {
      PieceStartShift(r, i);
      assert r[i] == rest[i - 2];
      if i % 2 == 0 {
        assert NoMatchInPiece(s, e, rest, i - 2);
      } else {
        assert CaptureMatches(s, e, rest, i - 2);
      }
    }
  }

  lemma PieceStartShift(pieces: seq<string>, i: nat)
    requires 2 <= i <= |pieces|
    ensures PieceStart(pieces, i) == |pieces[0]| + |pieces[1]| + 4 + PieceStart(pieces[2..], i - 2)
  {
    assert pieces[1..][1..] == pieces[2..];
  }

  /** Matches are found leftmost first and each is the shortest: no match begins inside any text
      piece, and every captured heading is the lazy match at the place of its markers. */
  lemma SplitLeftmostLazy(s: string)
    ensures LeftmostLazy(s, 0, Split(s))
  {
    SplitFromLeftmostLazy(s, 0, 0);
  }

  lemma {:induction false} SplitFromWithoutMarkers(s: string, p: nat, q: nat)
    requires p <= q <= |s| && NoMarkers(s)
    ensures SplitFrom(s, p, q) == [s[p..]]
    decreases |s| - q
  {
    if q < |s| {
      assert MatchAt(s, q).None?;
      SplitFromWithoutMarkers(s, p, q + 1);
    }
  }

  /** A text without `**heading**` markers is a single piece. */
  lemma SplitWithoutMarkers(s: string)
    requires NoMarkers(s)
    ensures Split(s) == [s]
  {
    SplitFromWithoutMarkers(s, 0, 0);
  }

  // ---------------------------------------------------------------------------------------
  // The blocks `formatResponse` emits
  // ---------------------------------------------------------------------------------------

  /** `section.split('\n')[0]`: the section up to its first '\n'. */
  function FirstLine(section: string): (r: string)
    ensures |r| <= |section| && r == section[..|r|]
    ensures '\n' !in r
    ensures |r| < |section| ==> section[|r|] == '\n'
  {
    if section == [] || section[0] == '\n' then [] else [section[0]] + FirstLine(section[1..])
  }

  /** `contentParts.join('\n')` for `[heading, ...contentParts] = section.split('\n')`:
      everything after the first '\n', or nothing when there is none. */
  function OtherLines(section: string): (r: string)
    ensures '\n' in section ==> section == FirstLine(section) + "\n" + r
    ensures '\n' !in section ==> r == [] && FirstLine(section) == section
  {
    var heading := FirstLine(section);
    if |heading| < |section| then
      assert section == heading + "\n" + section[|heading| + 1..] by {
        assert section == section[..|heading|] + [section[|heading|]] + section[|heading| + 1..];
      }
      section[|heading| + 1..]
    else
      []
  }

  /** What `formatResponse` emits for every section after the first. */
  function Block(section: string): string {
    "\n\n**" + Trim(FirstLine(section)) + "**\n" + Trim(OtherLines(section))
  }

  /** A block is a blank line, then the trimmed heading in bold on a line of its own, then the
      trimmed content. */
  lemma BlockLayout(section: string)
    ensures var r := Block(section);
      |r| >= 7 && r[..4] == "\n\n**"
      && var content := Trim(OtherLines(section)); var close := |r| - |content| - 3;
      4 <= close && r[close..close + 3] == "**\n" && r[close + 3..] == content
      && forall i :: 4 <= i < close ==> r[i] != '\n'
  {
    var line := FirstLine(section);
    var heading := Trim(line);
    var start := LeadingSpace(line);
    assert heading == line[start..start + |heading|];
    forall i | 0 <= i < |heading| ensures heading[i] != '\n' {
      assert heading[i] == line[start + i];
    }
    BoldLineLayout(heading, Trim(OtherLines(section)));
  }

  /** A heading without line breaks, framed as `formatResponse` frames it, stays on one line. */
  lemma BoldLineLayout(heading: string, content: string)
    requires forall i :: 0 <= i < |heading| ==> heading[i] != '\n'
    ensures var r := "\n\n**" + heading + "**\n" + content; var close := 4 + |heading|;
      |r| == close + 3 + |content| && r[..4] == "\n\n**" && r[close..close + 3] == "**\n"
      && r[close + 3..] == content && forall i :: 4 <= i < close ==> r[i] != '\n'
  {
    var open := "\n\n**" + heading;
    var framed := open + "**\n";
    var r := framed + content;
    assert open[..4] == "\n\n**";
    assert forall i :: 4 <= i < |open| ==> open[i] == heading[i - 4];
    assert framed[..|open|] == open && framed[|open|..] == "**\n";
    assert r[..|framed|] == framed && r[|framed|..] == content;
    assert r[..4] == framed[..4] == open[..4];
    assert r[|open|..|framed|] == framed[|open|..];
  }

  /** `formattedResponse` after the first `n` sections: the first section trimmed, then one block
      per later section, in order. */
  function Assembled(sections: seq<string>, n: nat): string
    requires 1 <= n <= |sections|
  {
    if n == 1 then Trim(sections[0]) else Assembled(sections, n - 1) + Block(sections[n - 1])
  }

  /** `formattedResponse` after the whole `forEach`. */
  function Assemble(sections: seq<string>): string
    requires sections != []
  {
    Assembled(sections, |sections|)
  }

  /** The response so far starts with the trimmed first section, and every later section adds a
      block of at least seven characters. */
  lemma {:induction false} AssembledLayout(sections: seq<string>, n: nat)
    requires 1 <= n <= |sections|
    ensures var first := Trim(sections[0]); var r := Assembled(sections, n);
      |first| + 7 * (n - 1) <= |r| && r[..|first|] == first
  {
    if n > 1 {
      var first := Trim(sections[0]);
      var previous := Assembled(sections, n - 1);
      AssembledLayout(sections, n - 1);
      BlockLayout(sections[n - 1]);
      assert (previous + Block(sections[n - 1]))[..|first|] == previous[..|first|];
    }
  }

  /** `t.replace(/\* /g, '\n* ')`: a '\n' is inserted before every "* ", scanning left to right. */
  function ReplaceBullets(t: string): (r: string)
    ensures |r| >= |t|
    ensures t != [] ==> r != [] && r[0] == (if BulletAt(t, 0) then '\n' else t[0])
  {
    if BulletAt(t, 0) then "\n* " + ReplaceBullets(t[2..])
    else if t == [] then []
    else [t[0]] + ReplaceBullets(t[1..])
  }

  /** The whole of `formatResponse(text)`: every bullet marker of the result starts a line, and
      deleting the line breaks inserted before them gives back the assembled sections. */
  function Format(text: string): (r: string)
    ensures BulletsOnOwnLines(r)
    ensures Unbullet(r) == Assemble(Split(text))
  {
    var assembled := Assemble(Split(text));
    BulletsStartLines(assembled);
    ReplaceBulletsRoundTrip(assembled);
    ReplaceBullets(assembled)
  }

  // ---------------------------------------------------------------------------------------
  // Properties
  // ---------------------------------------------------------------------------------------

  /** Every bullet marker "* " in `r` is preceded by '\n'. */
  predicate BulletsOnOwnLines(r: string) {
    forall i :: 0 <= i < |r| && BulletAt(r, i) ==> 1 <= i && r[i - 1] == '\n'
  }

  /** After the rewrite every bullet marker "* " starts a line. */
  lemma {:induction false} BulletsStartLines(t: string)
    ensures BulletsOnOwnLines(ReplaceBullets(t))
  {
    var r := ReplaceBullets(t);
    if BulletAt(t, 0) {
      var rest := ReplaceBullets(t[2..]);
      BulletsStartLines(t[2..]);
      assert BulletsOnOwnLines(rest);
      assert r == "\n* " + rest;
      forall i | BulletAt(r, i) ensures 1 <= i && r[i - 1] == '\n' {
        if i >= 3 {
          assert r[i] == rest[i - 3] && r[i + 1] == rest[i - 2];
          assert BulletAt(rest, i - 3);
          assert r[i - 1] == rest[i - 4];
        } else {
          assert r[0] == '\n' && r[1] == '*' && r[2] == ' ';
        }
      }
    } else if t != [] {
      var rest := ReplaceBullets(t[1..]);
      BulletsStartLines(t[1..]);
      assert BulletsOnOwnLines(rest);
      assert r == [t[0]] + rest;
      forall i | BulletAt(r, i) ensures 1 <= i && r[i - 1] == '\n' {
        assert r[i + 1] == rest[i];
        if i == 0 {
          assert false;
        } else {
          assert r[i] == rest[i - 1];
          assert BulletAt(rest, i - 1);
          assert r[i - 1] == rest[i - 2];
        }
      }
    }
  }

  /** Undoes the rewrite: deletes the '\n' at the start of every "\n* ", scanning left to right. */
  function Unbullet(r: string): string {
    if 3 <= |r| && r[0] == '\n' && BulletAt(r, 1) then "* " + Unbullet(r[3..])
    else if r == [] then []
    else [r[0]] + Unbullet(r[1..])
  }

  /** The rewrite never produces text that starts with a bullet marker. */
  lemma NoBulletAtStart(t: string)
    ensures !BulletAt(ReplaceBullets(t), 0)
  {
    if !BulletAt(t, 0) && |t| >= 2 {
      assert ReplaceBullets(t) == [t[0]] + ReplaceBullets(t[1..]);
      assert ReplaceBullets(t)[1] == ReplaceBullets(t[1..])[0];
    }
  }

  /** The rewrite inserts exactly one '\n' before every "* " and keeps every other character:
      deleting those line breaks gives the text back. */
  lemma {:induction false} ReplaceBulletsRoundTrip(t: string)
    ensures Unbullet(ReplaceBullets(t)) == t
  {
    if BulletAt(t, 0) {
      var r := ReplaceBullets(t);
      ReplaceBulletsRoundTrip(t[2..]);
      assert r == "\n* " + ReplaceBullets(t[2..]);
      assert r[3..] == ReplaceBullets(t[2..]);
      assert t == "* " + t[2..];
    } else if t != [] {
      var r := ReplaceBullets(t);
      var rest := ReplaceBullets(t[1..]);
      ReplaceBulletsRoundTrip(t[1..]);
      NoBulletAtStart(t[1..]);
      assert r == [t[0]] + rest;
      if |rest| >= 2 {
        assert r[1] == rest[0] && r[2] == rest[1];
      }
      assert r[1..] == rest;
      assert t == [t[0]] + t[1..];
    }
  }

  /** The rewrite leaves a text unchanged exactly when it holds no bullet marker. */
  lemma {:induction false} ReplaceBulletsIdentity(t: string)
    ensures ReplaceBullets(t) == t <==> !HasBullet(t)
  {
    if BulletAt(t, 0) {
      assert |ReplaceBullets(t)| > |t|;
      assert 0 < |t| && BulletAt(t, 0);
    } else if t != [] {
      ReplaceBulletsIdentity(t[1..]);
      if HasBullet(t) {
        var i :| 0 <= i < |t| && BulletAt(t, i);
        assert 0 <= i - 1 < |t[1..]| && BulletAt(t[1..], i - 1);
      } else {
        forall i | 0 <= i < |t[1..]| ensures !BulletAt(t[1..], i) {
          assert !BulletAt(t, i + 1);
        }
      }
    }
  }

  /** A block for a captured heading has an empty body. */
  lemma CapturedHeadingBlock(c: string)
    requires IsCapture(c)
    ensures Block(c) == "\n\n**" + Trim(c) + "**\n"
  {
    assert '\n' !in c by {
      forall j | 0 <= j < |c| ensures c[j] != '\n' { assert !IsLineTerminator(c[j]); }
    }
  }

  /** The usual layout `**Heading**` followed by a line break and the body: the split puts the
      heading and the body in separate sections. */
  lemma HeadingThenBodySplit()
    ensures Split("**Summary**\nbody") == ["", "Summary", "\nbody"]
  {
    var s := "**Summary**\nbody";
    assert IsMatch(s, 0, 7);
    assert forall k :: 1 <= k < 7 ==> !IsMatch(s, 0, k);
    assert MatchAt(s, 0) == Some(7);
    assert SplitFrom(s, 11, 16) == ["\nbody"];
    assert SplitFrom(s, 11, 15) == ["\nbody"];
    assert SplitFrom(s, 11, 14) == ["\nbody"];
    assert SplitFrom(s, 11, 13) == ["\nbody"];
    assert SplitFrom(s, 11, 12) == ["\nbody"];
    assert SplitFrom(s, 11, 11) == ["\nbody"];
    assert s[0..0] == "" && s[2..9] == "Summary";
  }

  /** A section that starts with a line break, as the text after a heading usually does, is
      emitted under an empty `****` heading, its lines after the break as the body. */
  lemma SectionOnNewLineHasEmptyHeading(section: string)
    requires section != [] && section[0] == '\n'
    ensures Block(section) == "\n\n****\n" + Trim(section[1..])
  {
    assert FirstLine(section) == [];
    assert OtherLines(section) == section[1..];
    assert Trim([]) == [];
    assert "\n\n**" + [] + "**\n" == "\n\n****\n";
  }

  /** Text without `**heading**` markers and without bullet markers comes back trimmed and otherwise unchanged. */
  lemma CleanTextIsOnlyTrimmed(text: string)
    requires NoMarkers(text) && !HasBullet(text)
    ensures Format(text) == Trim(text)
  {
    SplitWithoutMarkers(text);
    assert Assemble([text]) == Trim(text);
    var n := LeadingSpace(text);
    SliceHasNoBullet(text, n, n + |Trim(text)|);
    ReplaceBulletsIdentity(Trim(text));
  }

  // ---------------------------------------------------------------------------------------
  // `formatResponse` itself
  // ---------------------------------------------------------------------------------------

  /** The `forEach` of `formatResponse` over the split sections: the first section trimmed,
      then one block per later section. */
  method AssembleSections(sections: seq<string>) returns (formattedResponse: string)
    requires sections != []
    ensures formattedResponse == Assemble(sections)
  {
    formattedResponse := "";
    for index := 0 to |sections|
      invariant index == 0 ==> formattedResponse == ""
      invariant index > 0 ==> formattedResponse == Assembled(sections, index)
    {
      if index == 0 {
        formattedResponse := formattedResponse + Trim(sections[index]);
      } else {
        var section := sections[index];
        var headingText := Trim(FirstLine(section));
        var contentText := Trim(OtherLines(section));
        formattedResponse := formattedResponse + ("\n\n**" + headingText + "**\n" + contentText);
      }
    }
  }

  /** `formatResponse(text)`: builds the response section by section, then moves every
      bullet marker to a line of its own. */
  method FormatResponse(text: string) returns (formattedResponse: string)
    ensures formattedResponse == Format(text)
    ensures BulletsOnOwnLines(formattedResponse)
  {
    var sections := Split(text);
    formattedResponse := AssembleSections(sections);
    formattedResponse := ReplaceBullets(formattedResponse);
  }
}
