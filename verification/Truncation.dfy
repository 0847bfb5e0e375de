/** truncate_string, kits/interface/InterfaceDefs.cpp, over real widths. */
module Truncation {
  datatype Mode = Beginning | End | Middle | Smart

  const ELLIPSIS: char := '\U{2026}'

  /** What is left of a string: all of it, nothing, or all but the characters from `from` to `to`, which an ellipsis
      replaces. */
  datatype Cut = Whole | Nothing | Replaced(from: nat, to: nat)

  /** The slack that the code adds to the width. */
  const SLACK := 1.0 / 128.0

  /** The width of the characters from `i` to `j`. */
  function Sum(w: seq<real>, i: nat, j: nat): real
    requires i <= j <= |w|
    decreases j
  {
    if i == j then 0.0 else Sum(w, i, j - 1) + w[j - 1]
  }

  predicate NonNegative(w: seq<real>) {
    forall i | 0 <= i < |w| :: w[i] >= 0.0
  }

  lemma {:induction false} SumFront(w: seq<real>, i: nat, j: nat)
    requires i < j <= |w|
    ensures Sum(w, i, j) == w[i] + Sum(w, i + 1, j)
    decreases j
  {
    if i + 1 < j {
      SumFront(w, i, j - 1);
    }
  }

  lemma {:induction false} SumParts(w: seq<real>, i: nat, m: nat, j: nat)
    requires i <= m <= j <= |w|
    ensures Sum(w, i, j) == Sum(w, i, m) + Sum(w, m, j)
    decreases j
  {
    if m < j {
      SumParts(w, i, m, j - 1);
    }
  }

  lemma {:induction false} SumNonNegative(w: seq<real>, i: nat, j: nat)
    requires i <= j <= |w| && NonNegative(w)
    ensures Sum(w, i, j) >= 0.0
    decreases j
  {
    if i < j {
      SumNonNegative(w, i, j - 1);
    }
  }

  /** A part is at most as wide as a larger part. */
  lemma {:induction false} SumGrows(w: seq<real>, i: nat, i': nat, j': nat, j: nat)
    requires i <= i' <= j' <= j <= |w| && NonNegative(w)
    ensures Sum(w, i', j') <= Sum(w, i, j)
  {
    SumParts(w, i, i', j);
    SumParts(w, i', j', j);
    SumNonNegative(w, i, i');
    SumNonNegative(w, j', j);
  }

  /** What is kept, with the ellipsis, is within the limit. */
  ghost predicate Fits(cut: Cut, w: seq<real>, ellipsis: real, limit: real) {
    cut.Replaced? ==>
      cut.from < cut.to <= |w| && Sum(w, 0, cut.from) + Sum(w, cut.to, |w|) + ellipsis <= limit
  }

  /** The whole string stays exactly if it is empty or fits, and nothing stays exactly if it does not and neither does
      the ellipsis. */
  ghost predicate RightKind(cut: Cut, w: seq<real>, ellipsis: real, limit: real) {
    && (cut.Whole? <==> w == [] || Sum(w, 0, |w|) <= limit)
    && (cut.Nothing? <==> w != [] && Sum(w, 0, |w|) > limit && ellipsis > limit)
  }

  ghost predicate BeginningsFit(w: seq<real>, limit: real) {
    forall j | 0 < j <= |w| :: Sum(w, 0, j) <= limit
  }

  ghost predicate EndsFit(w: seq<real>, limit: real) {
    forall j | 0 <= j < |w| :: Sum(w, j, |w|) <= limit
  }

  /** B_TRUNCATE_BEGINNING: with widths that are not negative, the longest end of the string that fits behind an
      ellipsis. */
  method CutBeginning(w: seq<real>, ellipsis: real, limit: real) returns (cut: Cut)
    ensures Fits(cut, w, ellipsis, limit) && (cut.Replaced? ==> cut.from == 0)
    ensures cut.Whole? <==> EndsFit(w, limit)
    ensures NonNegative(w) && ellipsis >= 0.0 ==> RightKind(cut, w, ellipsis, limit)
    ensures NonNegative(w) && ellipsis >= 0.0 && cut.Replaced? ==>
              forall j | 0 <= j < cut.to :: Sum(w, j, |w|) + ellipsis > limit
  {
    var totalWidth := 0.0;
    var i := |w| - 1;
    while i >= 0
      invariant -1 <= i < |w| && totalWidth == Sum(w, i + 1, |w|)
      invariant forall j | i < j < |w| :: Sum(w, j, |w|) <= limit
    {
      var charWidth := w[i];
      SumFront(w, i, |w|);
      if totalWidth + charWidth > limit {
        ghost var overflow := i;
        assert Sum(w, overflow, |w|) > limit;
        assert !EndsFit(w, limit);
        while totalWidth + ellipsis > limit
          invariant overflow <= i < |w| && totalWidth == Sum(w, i + 1, |w|)
          invariant forall j | overflow < j <= i :: Sum(w, j, |w|) + ellipsis > limit
          decreases |w| - i
        {
          i := i + 1;
          if i == |w| {
            NothingFits(w, overflow, |w|, ellipsis, limit);
            return Nothing;
          }
          SumFront(w, i, |w|);
          totalWidth := totalWidth - w[i];
        }
        if NonNegative(w) && ellipsis >= 0.0 {
          forall j | 0 <= j <= overflow ensures Sum(w, j, |w|) + ellipsis > limit {
            SumGrows(w, j, overflow, |w|, |w|);
          }
          SumGrows(w, 0, overflow, |w|, |w|);
          SumNonNegative(w, i + 1, |w|);
        }
        return Replaced(0, i + 1);
      }
      totalWidth := totalWidth + charWidth;
      i := i - 1;
    }
    return Whole;
  }

  lemma {:induction false} NothingFits(w: seq<real>, i: nat, j: nat, ellipsis: real, limit: real)
    requires i < j <= |w| && Sum(w, i, j) > limit && ellipsis > limit
    ensures NonNegative(w) ==> RightKind(Nothing, w, ellipsis, limit)
  {
    if NonNegative(w) {
      SumGrows(w, 0, i, j, |w|);
    }
  }

  /** B_TRUNCATE_END: with widths that are not negative, the longest beginning of the string that fits in front of an
      ellipsis. */
  method CutEnd(w: seq<real>, ellipsis: real, limit: real) returns (cut: Cut)
    ensures Fits(cut, w, ellipsis, limit) && (cut.Replaced? ==> cut.to == |w|)
    ensures cut.Whole? <==> BeginningsFit(w, limit)
    ensures NonNegative(w) && ellipsis >= 0.0 ==> RightKind(cut, w, ellipsis, limit)
    ensures NonNegative(w) && ellipsis >= 0.0 && cut.Replaced? ==>
              forall j | cut.from < j <= |w| :: Sum(w, 0, j) + ellipsis > limit
  {
    var totalWidth := 0.0;
    var i := 0;
    while i < |w|
      invariant 0 <= i <= |w| && totalWidth == Sum(w, 0, i)
      invariant forall j | 0 < j <= i :: Sum(w, 0, j) <= limit
    {
      var charWidth := w[i];
      if totalWidth + charWidth > limit {
        ghost var overflow := i;
        assert Sum(w, 0, overflow + 1) > limit;
        assert !BeginningsFit(w, limit);
        while totalWidth + ellipsis > limit
          invariant 0 <= i <= overflow && totalWidth == Sum(w, 0, i)
          invariant forall j | i < j <= overflow :: Sum(w, 0, j) + ellipsis > limit
          decreases i
        {
          if i == 0 {
            NothingFits(w, 0, overflow + 1, ellipsis, limit);
            return Nothing;
          }
          i := i - 1;
          totalWidth := totalWidth - w[i];
        }
        if NonNegative(w) && ellipsis >= 0.0 {
          forall j | overflow < j <= |w| ensures Sum(w, 0, j) + ellipsis > limit {
            SumGrows(w, 0, 0, overflow + 1, j);
          }
          SumGrows(w, 0, 0, overflow + 1, |w|);
          SumNonNegative(w, 0, i);
        }
        return Replaced(i, |w|);
      }
      totalWidth := totalWidth + charWidth;
      i := i + 1;
    }
    return Whole;
  }

  /** The parts kept on the left and on the right differ by at most a character that is nowhere exceeded. */
  ghost predicate Balanced(leftWidth: real, rightWidth: real, widest: real) {
    leftWidth - rightWidth <= widest && rightWidth - leftWidth <= widest
  }

  /** What is kept in front of `from` and from `to` on. */
  ghost function Kept(w: seq<real>, from: nat, to: nat): real
    requires from <= to <= |w|
  {
    Sum(w, 0, from) + Sum(w, to, |w|)
  }

  lemma {:induction false} KeptIsPart(w: seq<real>, from: nat, to: nat)
    requires from <= to <= |w| && NonNegative(w)
    ensures 0.0 <= Kept(w, from, to) <= Sum(w, 0, |w|)
  {
    SumParts(w, 0, from, |w|);
    SumParts(w, from, to, |w|);
    SumNonNegative(w, 0, from);
    SumNonNegative(w, from, to);
    SumNonNegative(w, to, |w|);
  }

  lemma {:induction false} KeptParts(w: seq<real>, from: nat, to: nat)
    requires from <= to <= |w|
    ensures NonNegative(w) ==> Sum(w, 0, from) >= 0.0 && Sum(w, to, |w|) >= 0.0
    ensures from > 0 ==> Sum(w, 0, from) == Sum(w, 0, from - 1) + w[from - 1]
    ensures NonNegative(w) && from > 0 ==> Sum(w, 0, from - 1) >= 0.0
    ensures to < |w| ==> Sum(w, to, |w|) == w[to] + Sum(w, to + 1, |w|)
    ensures NonNegative(w) && to < |w| ==> Sum(w, to + 1, |w|) >= 0.0
  {
    if NonNegative(w) {
      SumNonNegative(w, 0, from);
      SumNonNegative(w, to, |w|);
      if from > 0 {
        SumNonNegative(w, 0, from - 1);
      }
      if to < |w| {
        SumNonNegative(w, to + 1, |w|);
      }
    }
    if to < |w| {
      SumFront(w, to, |w|);
    }
  }

  /** The character next to what is kept on one of the sides does not fit any more. */
  ghost predicate Tight(w: seq<real>, from: nat, to: nat, ellipsis: real, limit: real)
    requires from < to <= |w|
  {
    Kept(w, from, to) + w[from] + ellipsis > limit || Kept(w, from, to) + w[to - 1] + ellipsis > limit
  }

  /** B_TRUNCATE_MIDDLE and B_TRUNCATE_SMART: takes characters from both ends, always to the narrower side, and gives
      them back until there is room for the ellipsis, always from the wider side.  It gives back no more than it has to,
      and with widths between zero and `widest` both sides stay in balance. */
  method CutMiddle(w: seq<real>, ellipsis: real, limit: real, ghost widest: real) returns (cut: Cut)
    ensures Fits(cut, w, ellipsis, limit)
    ensures NonNegative(w) && ellipsis >= 0.0 ==> RightKind(cut, w, ellipsis, limit)
    ensures NonNegative(w) && (forall i | 0 <= i < |w| :: w[i] <= widest) && cut.Replaced? ==>
              Balanced(Sum(w, 0, cut.from), Sum(w, cut.to, |w|), widest)
    ensures ellipsis >= 0.0 && cut.Replaced? ==> Tight(w, cut.from, cut.to, ellipsis, limit)
  {
    var leftWidth, rightWidth := 0.0, 0.0;
    var leftIndex, rightIndex := 0, |w| - 1;
    var left := true;
    ghost var bounded := NonNegative(w) && forall i | 0 <= i < |w| :: w[i] <= widest;
    assert bounded && w != [] ==> widest >= w[0] >= 0.0;
    var i := 0;
    while i < |w|
      invariant 0 <= i <= |w| && 0 <= leftIndex && leftIndex + (|w| - 1 - rightIndex) == i && rightIndex < |w|
      invariant leftWidth == Sum(w, 0, leftIndex) && rightWidth == Sum(w, rightIndex + 1, |w|)
      invariant left <==> rightWidth > leftWidth || i == 0
      invariant i > 0 ==> leftWidth + rightWidth <= limit
      invariant bounded && w != [] ==> Balanced(leftWidth, rightWidth, widest)
    {
      var charWidth := w[if left then leftIndex else rightIndex];
      SumFront(w, rightIndex, |w|);
      if leftWidth + rightWidth + charWidth > limit {
        if NonNegative(w) {
          KeptIsPart(w, if left then leftIndex + 1 else leftIndex, if left then rightIndex + 1 else rightIndex);
        }
        assert NonNegative(w) ==> Sum(w, 0, |w|) > limit;
        while leftWidth + rightWidth + ellipsis > limit
          invariant 0 <= leftIndex <= rightIndex < |w|
          invariant leftWidth == Sum(w, 0, leftIndex) && rightWidth == Sum(w, rightIndex + 1, |w|)
          invariant bounded && w != [] ==> Balanced(leftWidth, rightWidth, widest)
          invariant ellipsis >= 0.0 ==> Tight(w, leftIndex, rightIndex + 1, ellipsis, limit)
          decreases leftIndex - rightIndex + |w|
        {
          if leftIndex == 0 && rightIndex == |w| - 1 {
            return Nothing;
          }
          KeptParts(w, leftIndex, rightIndex + 1);
          if leftIndex > 0 && (rightIndex == |w| - 1 || leftWidth > rightWidth) {
            leftIndex := leftIndex - 1;
            leftWidth := leftWidth - w[leftIndex];
          } else {
            rightIndex := rightIndex + 1;
            rightWidth := rightWidth - w[rightIndex];
          }
        }
        KeptParts(w, leftIndex, rightIndex + 1);
        return Replaced(leftIndex, rightIndex + 1);
      }
      if left {
        leftIndex := leftIndex + 1;
        leftWidth := leftWidth + charWidth;
      } else {
        rightIndex := rightIndex - 1;
        rightWidth := rightWidth + charWidth;
      }
      left := rightWidth > leftWidth;
      i := i + 1;
    }
    SumParts(w, 0, leftIndex, |w|);
    return Whole;
  }

  /** The edits that BString offers for it, by characters. */
  class BString {
    var text: string

    constructor (text: string)
      ensures this.text == text
    {
      this.text := text;
    }

    method RemoveChars(from: nat, count: nat)
      requires from + count <= |text|
      modifies this
      ensures text == old(text)[..from] + old(text)[from + count..]
    {
      text := text[..from] + text[from + count..];
    }

    method InsertChars(chars: string, at: nat)
      requires at <= |text|
      modifies this
      ensures text == old(text)[..at] + chars + old(text)[at..]
    {
      text := text[..at] + chars + text[at..];
    }
  }

  /** The text with the cut part replaced. */
  function Applied(cut: Cut, text: string): string
    requires cut.Replaced? ==> cut.from <= cut.to <= |text|
  {
    match cut
    case Whole => text
    case Nothing => ""
    case Replaced(from, to) => text[..from] + [ELLIPSIS] + text[to..]
  }

  /** What is kept is still in front of the ellipsis and behind it. */
  lemma {:induction false} AppliedKeeps(cut: Cut, text: string)
    requires cut.Replaced? && cut.from <= cut.to <= |text|
    ensures
      var after := Applied(cut, text);
      && |after| == cut.from + 1 + (|text| - cut.to)
      && after[..cut.from] == text[..cut.from] && after[cut.from] == ELLIPSIS && after[cut.from + 1..] == text[cut.to..]
  {
  }

  /** `truncate_string`: one escapement for each character, scaled by the font size. */
  method TruncateString(s: BString, mode: Mode, width: real, escapements: seq<real>, fontSize: real, ellipsis: real,
                        ghost widest: real) returns (ghost cut: Cut)
    requires |escapements| == |s.text|
    modifies s
    ensures
      var w, limit := Scaled(escapements, fontSize), width + SLACK;
      && Fits(cut, w, ellipsis, limit) && s.text == Applied(cut, old(s.text))
      && (NonNegative(w) && ellipsis >= 0.0 ==> RightKind(cut, w, ellipsis, limit))
      && (cut.Replaced? ==>
            match mode
            case Beginning =>
              cut.from == 0
              && (NonNegative(w) && ellipsis >= 0.0 ==> forall j | 0 <= j < cut.to :: Sum(w, j, |w|) + ellipsis > limit)
            case End =>
              cut.to == |w|
              && (NonNegative(w) && ellipsis >= 0.0 ==>
                    forall j | cut.from < j <= |w| :: Sum(w, 0, j) + ellipsis > limit)
            case _ =>
              (ellipsis >= 0.0 ==> Tight(w, cut.from, cut.to, ellipsis, limit))
              && (NonNegative(w) && (forall i | 0 <= i < |w| :: w[i] <= widest) ==>
                Balanced(Sum(w, 0, cut.from), Sum(w, cut.to, |w|), widest)))
  {
    hide Sum, NonNegative, RightKind, Balanced, Tight, Scaled;
    var w, limit := Scaled(escapements, fontSize), width + SLACK;
    var c;
    match mode {
      case Beginning => c := CutBeginning(w, ellipsis, limit);
      case End => c := CutEnd(w, ellipsis, limit);
      case _ => c := CutMiddle(w, ellipsis, limit, widest);
    }
    cut := c;
    match c {
      case Whole =>
      case Nothing => s.RemoveChars(0, |s.text|);
      case Replaced(from, to) =>
        s.RemoveChars(from, to - from);
        s.InsertChars([ELLIPSIS], from);
    }
  }

  function Scaled(escapements: seq<real>, fontSize: real): (w: seq<real>)
    ensures |w| == |escapements|
  {
    seq(|escapements|, i requires 0 <= i < |escapements| => escapements[i] * fontSize)
  }

  /** The width of a part is that of its escapements, scaled by the font size. */
  lemma {:induction false} ScaledSum(escapements: seq<real>, fontSize: real, i: nat, j: nat)
    requires i <= j <= |escapements|
    ensures Sum(Scaled(escapements, fontSize), i, j) == Sum(escapements, i, j) * fontSize
    decreases j
  {
    if i < j {
      ScaledSum(escapements, fontSize, i, j - 1);
    }
  }
}
