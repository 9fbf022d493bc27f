/**
 * Plain-text sections: paragraphs are packed greedily into sections of bounded length,
 * and no other packing that keeps their order needs fewer sections.
 */
module Sections {
  import opened Strings

  const TEXT_WINDOW_SIZE: nat := 1000

  const BLANK_LINE: string := "\n\n"

  /** `str::split` at blank lines, leftmost first. */
  function SplitBlankLines(text: string): (pieces: seq<string>)
    ensures |pieces| >= 1
  {
    if |text| < 2 then [text]
    else if text[0] == '\n' && text[1] == '\n' then [""] + SplitBlankLines(text[2..])
    else
      var rest := SplitBlankLines(text[1..]);
      [[text[0]] + rest[0]] + rest[1..]
  }

  /** The pieces, trimmed, without the blank ones. */
  function NonBlank(pieces: seq<string>): seq<string> {
    if pieces == [] then []
    else
      var last := Trim(pieces[|pieces| - 1]);
      NonBlank(pieces[..|pieces| - 1]) + (if last == [] then [] else [last])
  }

  lemma {:induction false} NonBlankIsNotBlank(pieces: seq<string>)
    ensures forall i :: 0 <= i < |NonBlank(pieces)| ==> NonBlank(pieces)[i] != []
  {
    if pieces != [] {
      NonBlankIsNotBlank(pieces[..|pieces| - 1]);
    }
  }

  /** No blank line is inside. */
  predicate HasNoBlankLine(piece: string) {
    forall i :: 0 <= i < |piece| - 1 ==> !(piece[i] == '\n' && piece[i + 1] == '\n')
  }

  /** The pieces of the leftmost split: none holds a blank line, and none before a separator ends with a line break. */
  predicate AreSplit(pieces: seq<string>) {
    && (forall k :: 0 <= k < |pieces| ==> HasNoBlankLine(pieces[k]))
    && (forall k :: 0 <= k < |pieces| - 1 ==> pieces[k] == [] || pieces[k][|pieces[k]| - 1] != '\n')
  }

  lemma {:induction false} PrependKeepsSplit(c: char, pieces: seq<string>)
    requires pieces != [] && AreSplit(pieces) && (c == '\n' ==> (pieces[0] != [] && pieces[0][0] != '\n') || (pieces[0] == [] && |pieces| == 1))
    ensures AreSplit([[c] + pieces[0]] + pieces[1..])
  {
    var all := [[c] + pieces[0]] + pieces[1..];
    assert forall k :: 1 <= k < |all| ==> all[k] == pieces[k];
  }

  /** Joined by blank lines the pieces are the text again, and they are those of the leftmost split. */
  lemma {:induction false} SplitExactly(text: string)
    ensures Join(SplitBlankLines(text), BLANK_LINE) == text && AreSplit(SplitBlankLines(text))
    ensures |text| >= 1 && !(|text| >= 2 && text[0] == '\n' && text[1] == '\n') ==>
              SplitBlankLines(text)[0] != [] && SplitBlankLines(text)[0][0] == text[0]
  {
    if |text| >= 2 {
      if text[0] == '\n' && text[1] == '\n' {
        SplitExactly(text[2..]);
        var rest := SplitBlankLines(text[2..]);
        assert ([""] + rest)[1..] == rest && text == BLANK_LINE + text[2..];
        assert forall k :: 1 <= k < |[""] + rest| ==> ([""] + rest)[k] == rest[k - 1];
      } else {
        SplitExactly(text[1..]);
        var rest := SplitBlankLines(text[1..]);
        assert text == [text[0]] + text[1..];
        JoinPrepend(text[0], rest);
        if text[0] == '\n' {
          assert text[1..][0] != '\n';
        }
        PrependKeepsSplit(text[0], rest);
      }
    }
  }

  lemma {:induction false} JoinPrepend(c: char, pieces: seq<string>)
    requires pieces != []
    ensures Join([[c] + pieces[0]] + pieces[1..], BLANK_LINE) == [c] + Join(pieces, BLANK_LINE)
  {
    assert ([[c] + pieces[0]] + pieces[1..])[1..] == pieces[1..];
  }

  /** The paragraphs are the pieces that are not blank, trimmed, in order. */
  lemma {:induction false} NonBlankOneMore(pieces: seq<string>, next: string)
    ensures NonBlank(pieces + [next]) == if IsBlank(next) then NonBlank(pieces) else NonBlank(pieces) + [Trim(next)]
    ensures NonBlank([]) == []
  {
    assert (pieces + [next])[..|pieces|] == pieces;
    var before, after := TrimExactly(next);
    if Trim(next) == [] {
      assert next == before + after;
    } else {
      assert next[|before|] == Trim(next)[0];
    }
  }

  function Paragraphs(text: string): seq<string> {
    NonBlank(SplitBlankLines(text))
  }

  // -------------------------------------------------------------------- Packing

  /** The length in bytes of paragraphs joined by blank lines. */
  function JoinedLen(group: seq<string>): nat {
    ByteLen(Join(group, BLANK_LINE))
  }

  /** A section may hold several paragraphs only if they fit the window together. */
  predicate Fits(group: seq<string>) {
    |group| <= 1 || JoinedLen(group) <= TEXT_WINDOW_SIZE
  }

  /** An order-preserving packing of `paragraphs`. */
  predicate IsPacking(groups: seq<seq<string>>, paragraphs: seq<string>) {
    Flatten(groups) == paragraphs && forall i :: 0 <= i < |groups| ==> Fits(groups[i])
  }

  /** No section has room for the paragraph that opens the next one. */
  predicate IsGreedy(groups: seq<seq<string>>) {
    && (forall i :: 0 <= i < |groups| ==> groups[i] != [])
    && (forall i :: 0 <= i < |groups| - 1 ==> JoinedLen(groups[i] + [groups[i + 1][0]]) > TEXT_WINDOW_SIZE)
  }

  function JoinAll(groups: seq<seq<string>>): seq<string> {
    seq(|groups|, i requires 0 <= i < |groups| => Join(groups[i], BLANK_LINE))
  }

  /** The loop state: sections pushed so far, and the one being filled. */
  ghost predicate Packed(merged: seq<string>, buf: string, groups: seq<seq<string>>, open: seq<string>, done: seq<string>) {
    && merged == JoinAll(groups) && buf == Join(open, BLANK_LINE)
    && Flatten(groups) + open == done
    && Fits(open) && (forall g :: 0 <= g < |groups| ==> Fits(groups[g]))
    && (open == [] ==> groups == [])
    && (open != [] ==> buf != [] && IsGreedy(groups + [open]))
  }

  method ExtractTextSections(text: string) returns (merged: seq<string>, ghost groups: seq<seq<string>>)
    ensures merged == JoinAll(groups)
    ensures IsPacking(groups, Paragraphs(text)) && IsGreedy(groups)
    ensures forall other :: IsPacking(other, Paragraphs(text)) ==> |merged| <= |other|
  {
    var paragraphs := SplitBlankLines(text);
    merged, groups := [], [];
    var buf := "";
    ghost var open: seq<string> := [];
    for i := 0 to |paragraphs|
      invariant Packed(merged, buf, groups, open, NonBlank(paragraphs[..i]))
    {
      assert paragraphs[..i + 1][..i] == paragraphs[..i];
      var para := Trim(paragraphs[i]);
      if para == [] {
        continue;
      }
      ghost var done := NonBlank(paragraphs[..i]);
      if ByteLen(buf) + ByteLen(para) + 2 > TEXT_WINDOW_SIZE && buf != [] {
        FlushKeepsPacked(merged, buf, groups, open, done, para);
        merged, buf := merged + [buf], "";
        groups, open := groups + [open], [];
        assert open + [para] == [para];
      } else {
        AppendKeepsPacked(merged, buf, groups, open, done, para);
      }
      if buf != [] {
        buf := buf + BLANK_LINE;
      }
      buf := buf + para;
      open := open + [para];
    }
    assert paragraphs[..|paragraphs|] == paragraphs;
    PackedIsPacking(merged, buf, groups, open, Paragraphs(text));
    if buf != [] {
      merged := merged + [buf];
      groups := groups + [open];
    }
    NoPackingIsShorter(groups, Paragraphs(text));
  }

  lemma {:induction false} NoPackingIsShorter(groups: seq<seq<string>>, paragraphs: seq<string>)
    requires IsPacking(groups, paragraphs) && IsGreedy(groups)
    ensures forall other :: IsPacking(other, paragraphs) ==> |groups| <= |other|
  {
    forall other | IsPacking(other, paragraphs) ensures |groups| <= |other| {
      GreedyIsOptimal(groups, other);
    }
  }

  lemma {:induction false} PackedIsPacking(merged: seq<string>, buf: string, groups: seq<seq<string>>, open: seq<string>, done: seq<string>)
    requires Packed(merged, buf, groups, open, done)
    ensures var whole := if buf == [] then groups else groups + [open];
            && IsPacking(whole, done) && IsGreedy(whole)
            && JoinAll(whole) == if buf == [] then merged else merged + [buf]
  {
    FlattenSnoc(groups, open);
  }

  lemma {:induction false} FlushKeepsPacked(merged: seq<string>, buf: string, groups: seq<seq<string>>, open: seq<string>, done: seq<string>, para: string)
    requires Packed(merged, buf, groups, open, done) && para != [] && buf != []
    requires ByteLen(buf) + ByteLen(para) + 2 > TEXT_WINDOW_SIZE
    ensures Packed(merged + [buf], para, groups + [open], [para], done + [para])
  {
    JoinedLenSnoc(open, para);
    FlattenSnoc(groups, open);
    assert merged + [buf] == JoinAll(groups + [open]);
  }

  lemma {:induction false} AppendKeepsPacked(merged: seq<string>, buf: string, groups: seq<seq<string>>, open: seq<string>, done: seq<string>, para: string)
    requires Packed(merged, buf, groups, open, done) && para != []
    requires ByteLen(buf) + ByteLen(para) + 2 <= TEXT_WINDOW_SIZE || buf == []
    ensures Packed(merged, (if buf == [] then [] else buf + BLANK_LINE) + para, groups, open + [para], done + [para])
  {
    JoinSnoc(open, para, BLANK_LINE);
    JoinedLenSnoc(open, para);
    if open != [] {
      GreedyAppend(groups, open, para);
    }
    assert Flatten(groups) + (open + [para]) == done + [para];
  }

  lemma {:induction false} GreedyAppend(groups: seq<seq<string>>, open: seq<string>, para: string)
    requires IsGreedy(groups + [open]) && open != []
    ensures IsGreedy(groups + [open + [para]])
  {
    var before, after := groups + [open], groups + [open + [para]];
    assert forall i :: 0 <= i < |groups| ==> after[i] == before[i] != [];
    forall i | 0 <= i < |after| - 1 ensures JoinedLen(after[i] + [after[i + 1][0]]) > TEXT_WINDOW_SIZE {
      assert after[i] == before[i] && after[i + 1][0] == before[i + 1][0];
    }
  }

  lemma {:induction false} JoinedLenSnoc(group: seq<string>, para: string)
    ensures JoinedLen(group + [para]) == if group == [] then ByteLen(para) else JoinedLen(group) + 2 + ByteLen(para)
  {
    JoinSnoc(group, para, BLANK_LINE);
    if group != [] {
      ByteLenConcat(Join(group, BLANK_LINE) + BLANK_LINE, para);
      ByteLenConcat(Join(group, BLANK_LINE), BLANK_LINE);
      assert ByteLen(BLANK_LINE) == 2 by {
        assert BLANK_LINE[1..] == "\n" && "\n"[1..] == "";
      }
    }
  }

  // ----------------------------------------------------------------- Optimality

  lemma {:induction false} PrefixIsShorter(group: seq<string>, k: nat)
    requires k <= |group|
    ensures JoinedLen(group[..k]) <= JoinedLen(group)
    decreases |group|
  {
    if k == |group| {
      assert group[..k] == group;
    } else {
      var n := |group| - 1;
      assert group == group[..n] + [group[n]] && group[..n][..k] == group[..k];
      JoinedLenSnoc(group[..n], group[n]);
      PrefixIsShorter(group[..n], k);
      assert Join([], BLANK_LINE) == [];
    }
  }

  lemma {:induction false} SuffixIsShorter(group: seq<string>, k: nat)
    requires k <= |group|
    ensures JoinedLen(group[k..]) <= JoinedLen(group)
    decreases |group|
  {
    if k == 0 {
      assert group[k..] == group;
    } else if k == |group| {
      assert group[k..] == [] && Join([], BLANK_LINE) == [];
    } else {
      var n := |group| - 1;
      assert group == group[..n] + [group[n]] && group[k..] == group[..n][k..] + [group[n]];
      JoinedLenSnoc(group[..n], group[n]);
      JoinedLenSnoc(group[..n][k..], group[n]);
      SuffixIsShorter(group[..n], k);
    }
  }

  /** A packing without its first `k` paragraphs, in no more sections. */
  function Without(groups: seq<seq<string>>, k: nat): (r: seq<seq<string>>)
    requires k <= |Flatten(groups)|
    ensures |r| == |groups| && Flatten(r) == Flatten(groups)[k..]
    ensures (forall i :: 0 <= i < |groups| ==> Fits(groups[i])) ==> forall i :: 0 <= i < |r| ==> Fits(r[i])
  {
    if groups == [] then []
    else if k <= |groups[0]| then
      SuffixIsShorter(groups[0], k);
      [groups[0][k..]] + groups[1..]
    else
      [[]] + Without(groups[1..], k - |groups[0]|)
  }

  lemma {:induction false} OneBeyond(first: seq<string>, rest: seq<string>, mine: seq<string>)
    requires |first| < |mine| <= |first + rest| && mine == (first + rest)[..|mine|]
    ensures mine[..|first| + 1] == first + [rest[0]]
  {
  }

  /** What reaches beyond the first section of a greedy packing does not fit the window. */
  lemma {:induction false} LongerOverflows(groups: seq<seq<string>>, mine: seq<string>)
    requires IsGreedy(groups) && groups != []
    requires |groups[0]| < |mine| <= |Flatten(groups)| && mine == Flatten(groups)[..|mine|]
    ensures JoinedLen(mine) > TEXT_WINDOW_SIZE
  {
    var rest := Flatten(groups[1..]);
    OneBeyond(groups[0], rest, mine);
    assert groups[1..] != [];
    assert groups[1..][0] == groups[1];
    assert rest[0] == groups[1][0];
    PrefixIsShorter(mine, |groups[0]| + 1);
  }

  lemma {:induction false} FirstGroupIsLongest(groups: seq<seq<string>>, other: seq<seq<string>>)
    requires IsGreedy(groups) && groups != [] && other != [] && Flatten(groups) == Flatten(other)
    requires Fits(other[0])
    ensures |other[0]| <= |groups[0]|
  {
    var mine := other[0];
    assert mine == Flatten(other)[..|mine|];
    if |mine| > |groups[0]| {
      LongerOverflows(groups, mine);
      assert groups[0] != [];
    }
  }

  /** Greedy packing needs no more sections than any other packing of the same paragraphs. */
  lemma {:induction false} GreedyIsOptimal(groups: seq<seq<string>>, other: seq<seq<string>>)
    requires IsGreedy(groups) && Flatten(groups) == Flatten(other)
    requires forall i :: 0 <= i < |other| ==> Fits(other[i])
    ensures |groups| <= |other|
    decreases |groups|
  {
    if groups != [] {
      assert Flatten(groups) != [] by {
        assert groups[0] != [];
      }
      assert other != [];
      FirstGroupIsLongest(groups, other);
      var k := |groups[0]| - |other[0]|;
      var rest := Without(other[1..], k);
      assert Flatten(groups[1..]) == Flatten(groups)[|groups[0]|..];
      assert Flatten(other[1..]) == Flatten(other)[|other[0]|..];
      GreedyIsOptimal(groups[1..], rest);
    }
  }

  // --------------------------------------------------------------- Conservation

  lemma {:induction false} BlankLinesHideNothing(text: string)
    ensures Visible(Flatten(SplitBlankLines(text))) == Visible(text)
  {
    var pieces := SplitBlankLines(text);
    if |text| < 2 {
      FlattenOne(text);
    } else if text[0] == '\n' && text[1] == '\n' {
      BlankLinesHideNothing(text[2..]);
      assert text[1..][1..] == text[2..] && pieces[1..] == SplitBlankLines(text[2..]) && pieces[0] == "";
      assert Flatten(pieces) == Flatten(pieces[1..]);
    } else {
      BlankLinesHideNothing(text[1..]);
      var rest := SplitBlankLines(text[1..]);
      assert pieces[1..] == rest[1..];
      assert Flatten(pieces) == [text[0]] + Flatten(rest);
      VisibleConcat([text[0]], Flatten(rest));
      VisibleConcat([text[0]], text[1..]);
      assert text == [text[0]] + text[1..];
    }
  }

  lemma {:induction false} NonBlankKeepsVisible(pieces: seq<string>)
    ensures Visible(Flatten(NonBlank(pieces))) == Visible(Flatten(pieces))
  {
    if pieces != [] {
      var n := |pieces| - 1;
      var last := Trim(pieces[n]);
      NonBlankKeepsVisible(pieces[..n]);
      assert pieces == pieces[..n] + [pieces[n]];
      FlattenSnoc(pieces[..n], pieces[n]);
      if last == [] {
        assert NonBlank(pieces) == NonBlank(pieces[..n]);
      } else {
        FlattenSnoc(NonBlank(pieces[..n]), last);
      }
      VisibleConcat(Flatten(pieces[..n]), pieces[n]);
      VisibleConcat(Flatten(NonBlank(pieces[..n])), last);
      TrimKeepsVisible(pieces[n]);
    }
  }

  lemma {:induction false} JoinShowsParts(parts: seq<string>)
    ensures Visible(Join(parts, BLANK_LINE)) == Visible(Flatten(parts))
  {
    if |parts| == 1 {
      assert parts == [parts[0]];
      FlattenOne(parts[0]);
    } else if |parts| > 1 {
      JoinShowsParts(parts[1..]);
      VisibleConcat(parts[0] + BLANK_LINE, Join(parts[1..], BLANK_LINE));
      VisibleConcat(parts[0], BLANK_LINE);
      VisibleConcat(parts[0], Flatten(parts[1..]));
      assert BLANK_LINE[1..] == "\n" && "\n"[1..] == "";
    }
  }

  lemma {:induction false} JoinedGroupsShowAll(groups: seq<seq<string>>)
    ensures Visible(Flatten(JoinAll(groups))) == Visible(Flatten(Flatten(groups)))
  {
    if groups != [] {
      JoinedGroupsShowAll(groups[1..]);
      JoinShowsParts(groups[0]);
      assert JoinAll(groups)[1..] == JoinAll(groups[1..]);
      VisibleConcat(Join(groups[0], BLANK_LINE), Flatten(JoinAll(groups[1..])));
      FlattenConcat(groups[0], Flatten(groups[1..]));
      VisibleConcat(Flatten(groups[0]), Flatten(Flatten(groups[1..])));
    }
  }

  /** Any packing of a text's paragraphs shows the text's visible characters, in order. */
  lemma {:induction false} PackingKeepsText(text: string, groups: seq<seq<string>>)
    requires Flatten(groups) == Paragraphs(text)
    ensures Visible(Flatten(JoinAll(groups))) == Visible(text)
  {
    JoinedGroupsShowAll(groups);
    NonBlankKeepsVisible(SplitBlankLines(text));
    BlankLinesHideNothing(text);
  }
}
