/** Worked slug examples over the Latin-1 tables. */
module SlugExamples {
  import opened JsText
  import opened BlogStore
  import Seqs

  lemma PaddedLowered()
    ensures ToLower(Latin, " Olá ") == " olá "
  {
  }

  lemma PaddedDecomposed()
    ensures Decompose(Latin, " olá ") == " ola\U{0301} "
  {
  }

  /** Stripping marks from unmarked text, one mark and a tail keeps the text and strips the tail. */
  lemma {:induction false} DropOneMark(u: string, m: char, v: string)
    requires forall i :: 0 <= i < |u| ==> IsNotMark(u[i])
    requires IsCombiningMark(m)
    ensures Seqs.Filter(u + [m] + v, IsNotMark) == u + Seqs.Filter(v, IsNotMark)
  {
    assert u + [m] + v == u + ([m] + v);
    Seqs.FilterSkipsHead(m, v, IsNotMark);
    Seqs.FilterAppend(u, [m] + v, IsNotMark);
    Seqs.FilterKeepsAll(u, IsNotMark);
  }

  lemma PaddedUnaccented()
    ensures Seqs.Filter(" ola\U{0301} ", IsNotMark) == " ola "
  {
    assert " ola\U{0301} " == " ola" + ['\U{0301}'] + " ";
    DropOneMark(" ola", '\U{0301}', " ");
    Seqs.FilterKeepsAll(" ", IsNotMark);
  }

  lemma PaddedAllowed()
    ensures Seqs.Filter(" ola ", IsAllowed) == " ola "
  {
    assert IsAllowed(' ') && IsAllowed('o') && IsAllowed('l') && IsAllowed('a');
    assert forall i :: 0 <= i < |" ola "| ==> IsAllowed(" ola "[i]);
    Seqs.FilterKeepsAll(" ola ", IsAllowed);
  }

  lemma PaddedHyphenedTail()
    ensures ReplaceRuns("ola ", IsSpace, '-') == "ola-"
  {
    assert "ola " == "ola" + [' '];
    ReplaceRunsOneTrailing("ola", ' ', IsSpace, '-');
    assert "ola" + ['-'] == "ola-";
  }

  lemma PaddedHyphened()
    ensures SpacesToHyphens(" ola ") == "-ola-"
  {
    assert " ola " == [' '] + "ola ";
    ReplaceRunsSingle(' ', "ola ", IsSpace, '-');
    PaddedHyphenedTail();
    assert ['-'] + "ola-" == "-ola-";
  }

  lemma PaddedSingleHyphens()
    ensures NoDoubleHyphen("-ola-")
  {
  }

  lemma PaddedCollapsed()
    ensures CollapseHyphens("-ola-") == "-ola-"
  {
    PaddedSingleHyphens();
    CollapseWithoutDoubleHyphen("-ola-");
  }

  /** Surrounding whitespace is kept as hyphens: `trim()` strips whitespace, not `-`. */
  lemma SlugOfPaddedWord()
    ensures GenerateSlug(Latin, " Olá ") == "-ola-"
  {
    PaddedLowered();
    PaddedDecomposed();
    PaddedUnaccented();
    PaddedAllowed();
    PaddedHyphened();
    PaddedCollapsed();
    TrimRemovesNothing(Latin, " Olá ");
  }

  lemma AccentedLowered()
    ensures ToLower(Latin, "Ação") == "ação"
  {
  }

  lemma AccentedDecomposed()
    ensures Decompose(Latin, "ação") == "ac\U{0327}a\U{0303}o"
  {
  }

  lemma AccentedUnaccented()
    ensures Seqs.Filter("ac\U{0327}a\U{0303}o", IsNotMark) == "acao"
  {
    var tail := "a" + ['\U{0303}'] + "o";
    assert "ac\U{0327}a\U{0303}o" == "ac" + ['\U{0327}'] + tail;
    DropOneMark("ac", '\U{0327}', tail);
    DropOneMark("a", '\U{0303}', "o");
    Seqs.FilterKeepsAll("o", IsNotMark);
    assert "ac" + ("a" + "o") == "acao";
  }

  lemma AccentedAllowed()
    ensures Seqs.Filter("acao", IsAllowed) == "acao"
  {
    Seqs.FilterKeepsAll("acao", IsAllowed);
  }

  lemma AccentedUnchanged()
    ensures CollapseHyphens(SpacesToHyphens("acao")) == "acao"
  {
    ReplaceRunsWithoutMatch("acao", IsSpace, '-');
    ReplaceRunsWithoutMatch("acao", IsHyphen, '-');
  }

  /** Accents are stripped after decomposition: `ç` and `ã` leave their base letters. */
  lemma SlugOfAccentedWord()
    ensures GenerateSlug(Latin, "Ação") == "acao"
  {
    AccentedLowered();
    AccentedDecomposed();
    AccentedUnaccented();
    AccentedAllowed();
    AccentedUnchanged();
    TrimRemovesNothing(Latin, "Ação");
  }

  /** The pieces of the title "Contabilidade para MEI: Guia 2024!", short enough to evaluate
      one at a time. */
  const TitlePieces: seq<string> := ["Contab", "ilidade", " para", " MEI", ": ", "Guia", " 2024", "!"]
  const LoweredPieces: seq<string> := ["contab", "ilidade", " para", " mei", ": ", "guia", " 2024", "!"]
  const AllowedPieces: seq<string> := ["contab", "ilidade", " para", " mei", " ", "guia", " 2024", ""]

  function Concat(ps: seq<string>): string
    decreases |ps|
  {
    if ps == [] then "" else ps[0] + Concat(ps[1..])
  }

  lemma {:induction false} ConcatAppend(a: seq<string>, b: seq<string>)
    ensures Concat(a + b) == Concat(a) + Concat(b)
    decreases |a|
  {
    if a == [] {
      assert a + b == b;
    } else {
      assert (a + b)[1..] == a[1..] + b;
      ConcatAppend(a[1..], b);
    }
  }

  lemma ConcatTitleFront()
    ensures Concat(["Contab", "ilidade", " para", " MEI"]) == "Contabilidade para MEI"
  {
  }

  lemma ConcatTitleBack()
    ensures Concat([": ", "Guia", " 2024", "!"]) == ": Guia 2024!"
  {
  }

  lemma ConcatTitle()
    ensures Concat(TitlePieces) == "Contabilidade para MEI: Guia 2024!"
  {
    assert TitlePieces == ["Contab", "ilidade", " para", " MEI"] + [": ", "Guia", " 2024", "!"];
    ConcatAppend(["Contab", "ilidade", " para", " MEI"], [": ", "Guia", " 2024", "!"]);
    ConcatTitleFront();
    ConcatTitleBack();
    assert "Contabilidade para MEI" + ": Guia 2024!" == "Contabilidade para MEI: Guia 2024!";
  }

  lemma ConcatLoweredFront()
    ensures Concat(["contab", "ilidade", " para", " mei"]) == "contabilidade para mei"
  {
  }

  lemma ConcatLoweredBack()
    ensures Concat([": ", "guia", " 2024", "!"]) == ": guia 2024!"
  {
  }

  lemma ConcatLowered()
    ensures Concat(LoweredPieces) == "contabilidade para mei: guia 2024!"
  {
    assert LoweredPieces == ["contab", "ilidade", " para", " mei"] + [": ", "guia", " 2024", "!"];
    ConcatAppend(["contab", "ilidade", " para", " mei"], [": ", "guia", " 2024", "!"]);
    ConcatLoweredFront();
    ConcatLoweredBack();
    assert "contabilidade para mei" + ": guia 2024!" == "contabilidade para mei: guia 2024!";
  }

  lemma ConcatAllowedFront()
    ensures Concat(["contab", "ilidade", " para", " mei"]) == "contabilidade para mei"
  {
  }

  lemma ConcatAllowedBack()
    ensures Concat([" ", "guia", " 2024", ""]) == " guia 2024"
  {
  }

  lemma ConcatAllowed()
    ensures Concat(AllowedPieces) == "contabilidade para mei guia 2024"
  {
    assert AllowedPieces == ["contab", "ilidade", " para", " mei"] + [" ", "guia", " 2024", ""];
    ConcatAppend(["contab", "ilidade", " para", " mei"], [" ", "guia", " 2024", ""]);
    ConcatAllowedFront();
    ConcatAllowedBack();
    assert "contabilidade para mei" + " guia 2024" == "contabilidade para mei guia 2024";
  }

  /** Mapping each piece maps the concatenation. */
  lemma {:induction false} FlatMapPieces(f: char -> seq<char>, ps: seq<string>, qs: seq<string>)
    requires |ps| == |qs| && forall k :: 0 <= k < |ps| ==> FlatMap(f, ps[k]) == qs[k]
    ensures FlatMap(f, Concat(ps)) == Concat(qs)
    decreases |ps|
  {
    if ps != [] {
      FlatMapPieces(f, ps[1..], qs[1..]);
      FlatMapAppend(f, ps[0], Concat(ps[1..]));
    }
  }

  /** Filtering each piece filters the concatenation. */
  lemma {:induction false} FilterPieces(p: char -> bool, ps: seq<string>, qs: seq<string>)
    requires |ps| == |qs| && forall k :: 0 <= k < |ps| ==> Seqs.Filter(ps[k], p) == qs[k]
    ensures Seqs.Filter(Concat(ps), p) == Concat(qs)
    decreases |ps|
  {
    if ps != [] {
      FilterPieces(p, ps[1..], qs[1..]);
      Seqs.FilterAppend(ps[0], Concat(ps[1..]), p);
    }
  }

  lemma LowerPiece(k: nat)
    requires k < |TitlePieces|
    ensures FlatMap(LatinLower, TitlePieces[k]) == LoweredPieces[k]
  {
    if k == 0 || k == 3 || k == 5 {
      LowerCapitalPiece(k);
    } else {
      var piece := TitlePieces[k];
      assert piece == LoweredPieces[k];
      assert forall i :: 0 <= i < |piece| ==> LatinLower(piece[i]) == [piece[i]];
      FlatMapIdentity(LatinLower, piece);
    }
  }

  /** The three pieces that hold capitals. */
  lemma LowerCapitalPiece(k: nat)
    requires k == 0 || k == 3 || k == 5
    ensures FlatMap(LatinLower, TitlePieces[k]) == LoweredPieces[k]
  {
    if k == 0 {
      assert FlatMap(LatinLower, "Contab") == "contab";
    } else if k == 3 {
      assert FlatMap(LatinLower, " MEI") == " mei";
    } else {
      assert FlatMap(LatinLower, "Guia") == "guia";
    }
  }

  /** An ASCII character has no decomposition in the sample tables. */
  lemma AsciiIsComposed(c: char)
    requires c < '\U{0080}'
    ensures LatinDecompose(c) == [c]
  {
  }

  lemma DecomposePiece(k: nat)
    requires k < |LoweredPieces|
    ensures FlatMap(LatinDecompose, LoweredPieces[k]) == LoweredPieces[k]
  {
    var piece := LoweredPieces[k];
    assert forall i :: 0 <= i < |piece| ==> piece[i] < '\U{0080}';
    forall i | 0 <= i < |piece| ensures LatinDecompose(piece[i]) == [piece[i]] {
      AsciiIsComposed(piece[i]);
    }
    FlatMapIdentity(LatinDecompose, piece);
  }

  lemma AllowedPiece(k: nat)
    requires k < |LoweredPieces|
    ensures Seqs.Filter(LoweredPieces[k], IsAllowed) == AllowedPieces[k]
  {
    if k == 4 {
      Seqs.FilterKeepsAll(" ", IsAllowed);
      Seqs.FilterSkipsHead(':', " ", IsAllowed);
      assert ": " == [':'] + " ";
    } else if k == 7 {
      Seqs.FilterSkipsHead('!', [], IsAllowed);
      assert "!" == ['!'] + [];
    } else {
      Seqs.FilterKeepsAll(LoweredPieces[k], IsAllowed);
    }
  }

  lemma TitleLowered()
    ensures ToLower(Latin, "Contabilidade para MEI: Guia 2024!") == "contabilidade para mei: guia 2024!"
  {
    forall k | 0 <= k < |TitlePieces|
      ensures FlatMap(LatinLower, TitlePieces[k]) == LoweredPieces[k]
    {
      LowerPiece(k);
    }
    FlatMapPieces(LatinLower, TitlePieces, LoweredPieces);
    ConcatTitle();
    ConcatLowered();
  }

  lemma TitleDecomposed()
    ensures Decompose(Latin, "contabilidade para mei: guia 2024!") == "contabilidade para mei: guia 2024!"
  {
    forall k | 0 <= k < |LoweredPieces|
      ensures FlatMap(LatinDecompose, LoweredPieces[k]) == LoweredPieces[k]
    {
      DecomposePiece(k);
    }
    FlatMapPieces(LatinDecompose, LoweredPieces, LoweredPieces);
    ConcatLowered();
  }

  lemma TitleUnaccented()
    ensures Seqs.Filter("contabilidade para mei: guia 2024!", IsNotMark) == "contabilidade para mei: guia 2024!"
  {
    forall k | 0 <= k < |LoweredPieces|
      ensures Seqs.Filter(LoweredPieces[k], IsNotMark) == LoweredPieces[k]
    {
      Seqs.FilterKeepsAll(LoweredPieces[k], IsNotMark);
    }
    FilterPieces(IsNotMark, LoweredPieces, LoweredPieces);
    ConcatLowered();
  }

  /** The colon and the exclamation mark are outside `[a-z0-9\s-]` and are dropped. */
  lemma TitleAllowed()
    ensures Seqs.Filter("contabilidade para mei: guia 2024!", IsAllowed) == "contabilidade para mei guia 2024"
  {
    forall k | 0 <= k < |LoweredPieces|
      ensures Seqs.Filter(LoweredPieces[k], IsAllowed) == AllowedPieces[k]
    {
      AllowedPiece(k);
    }
    FilterPieces(IsAllowed, LoweredPieces, AllowedPieces);
    ConcatLowered();
    ConcatAllowed();
  }

  /** The words of the title once its punctuation is gone. */
  const TitleWords: seq<string> := ["contabilidade", "para", "mei", "guia", "2024"]

  lemma TitleWordsSpaced()
    ensures Join(TitleWords, ' ') == "contabilidade para mei guia 2024"
  {
  }

  lemma TitleWordsHyphened()
    ensures Join(TitleWords, '-') == "contabilidade-para-mei-guia-2024"
  {
  }

  /** Every word of the title is non-empty and holds no whitespace. */
  lemma TitleWordsSpaceFree(k: nat)
    requires k < |TitleWords|
    ensures TitleWords[k] != [] && forall i :: 0 <= i < |TitleWords[k]| ==> !IsSpace(TitleWords[k][i])
  {
    var w := TitleWords[k];
    assert forall i :: 0 <= i < |w| ==> 'a' <= w[i] <= 'z' || '0' <= w[i] <= '9';
  }

  lemma TitleHyphened()
    ensures SpacesToHyphens("contabilidade para mei guia 2024") == "contabilidade-para-mei-guia-2024"
  {
    forall k | 0 <= k < |TitleWords|
      ensures TitleWords[k] != [] && forall i :: 0 <= i < |TitleWords[k]| ==> !IsSpace(TitleWords[k][i])
    {
      TitleWordsSpaceFree(k);
    }
    TitleWordsSpaced();
    TitleWordsHyphened();
    ReplaceRunsJoin(TitleWords, ' ', IsSpace, '-');
  }

  lemma TitleCollapsed()
    ensures CollapseHyphens("contabilidade-para-mei-guia-2024") == "contabilidade-para-mei-guia-2024"
  {
    assert NoDoubleHyphen("contabilidade-para-mei-guia-2024");
    CollapseWithoutDoubleHyphen("contabilidade-para-mei-guia-2024");
  }

  /** Words become hyphen-separated, digits stay, and punctuation goes. */
  lemma SlugOfMultiWordTitle()
    ensures GenerateSlug(Latin, "Contabilidade para MEI: Guia 2024!") == "contabilidade-para-mei-guia-2024"
  {
    TitleLowered();
    TitleDecomposed();
    TitleUnaccented();
    TitleAllowed();
    TitleHyphened();
    TitleCollapsed();
    TrimRemovesNothing(Latin, "Contabilidade para MEI: Guia 2024!");
  }
}
