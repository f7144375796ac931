/** The text shown on the tray icon: the tip override, or the child's window title cut to fit. */
module TrayText {
  import opened Wrappers
  import opened Config

  /** The longest title kept for the tray. */
  const MaxCount: nat := 63

  /**
   * The child's main-window title, cut to its trailing MaxCount characters.
   * Lengths are in UTF-16 code units, so the cut may fall inside a surrogate pair.
   */
  function GetTrayText(title: DotNetString): (r: DotNetString)
    ensures |r| <= MaxCount
    ensures |r| == if |title| <= MaxCount then |title| else MaxCount
    ensures r == title[|title| - |r|..]
  {
    if |title| > MaxCount then title[|title| - MaxCount..] else title
  }

  /** A title that already fits, including one of exactly MaxCount characters, is kept as it is. */
  lemma ShortTitleUnchanged(title: DotNetString)
    requires |title| <= MaxCount
    ensures GetTrayText(title) == title
  {
  }

  /** A longer title keeps exactly its last MaxCount characters. */
  lemma LongTitleKeepsTail(title: DotNetString)
    requires |title| > MaxCount
    ensures |GetTrayText(title)| == MaxCount
    ensures GetTrayText(title) == title[|title| - MaxCount..]
  {
  }

  /** Cutting twice cuts nothing more. */
  lemma GetTrayTextIdempotent(title: DotNetString)
    ensures GetTrayText(GetTrayText(title)) == GetTrayText(title)
  {
  }

  /** Only the rightmost part of a long title matters: any prefix added in front is dropped. */
  lemma PrefixIgnored(prefix: DotNetString, title: DotNetString)
    requires |title| >= MaxCount
    ensures GetTrayText(prefix + title) == GetTrayText(title)
  {
    var whole := prefix + title;
    assert whole[|prefix|..] == title;
    assert whole[|whole| - MaxCount..] == whole[|prefix|..][|title| - MaxCount..];
  }

  /**
   * The cut counts code units, not characters: a title of 40 emoji, each a
   * surrogate pair (0xD83D, 0xDE00), is 80 units long and keeps a tail that
   * starts with the second half of a pair.
   */
  lemma CutCanSplitSurrogatePair()
    ensures var title := seq(80, i => if i % 2 == 0 then 0xD83D as CodeUnit else 0xDE00 as CodeUnit);
      |GetTrayText(title)| == MaxCount && GetTrayText(title)[0] == 0xDE00
  {
  }

  /** Whether the label needs the child's window title (and so the delay before reading it). */
  predicate ReadsTitle(tip: NullableString) {
    IsNullOrEmpty(tip)
  }

  /** The tray label: a non-empty tip wins verbatim; otherwise the cut window title. */
  function TrayLabel(tip: NullableString, title: DotNetString): (r: DotNetString)
    ensures !ReadsTitle(tip) ==> r == tip.value && r != []
    ensures ReadsTitle(tip) ==> |r| <= MaxCount && |r| <= |title| && r == title[|title| - |r|..]
    ensures ReadsTitle(tip) && |title| <= MaxCount ==> r == title
    ensures ReadsTitle(tip) ==> r == GetTrayText(title)
  {
    if !IsNullOrEmpty(tip) then tip.value else GetTrayText(title)
  }

  /** With a tip override the window title has no influence on the label. */
  lemma TipIgnoresTitle(tip: NullableString, title1: DotNetString, title2: DotNetString)
    requires !IsNullOrEmpty(tip)
    ensures TrayLabel(tip, title1) == TrayLabel(tip, title2) == tip.value
  {
  }

  /** The label is bounded by MaxCount unless it is the tip itself, which is never cut. */
  lemma LabelBound(tip: NullableString, title: DotNetString)
    ensures |TrayLabel(tip, title)| <= MaxCount || TrayLabel(tip, title) == tip.value
  {
  }

  /** A tip longer than MaxCount reaches the tray unshortened. */
  lemma LongTipNotCut(tip: DotNetString, title: DotNetString)
    requires |tip| > MaxCount
    ensures |TrayLabel(Some(tip), title)| > MaxCount
  {
  }
}
