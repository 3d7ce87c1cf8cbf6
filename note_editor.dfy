/** The note editor dialog: the tag normaliser, and the editor's form state with the transitions its
    handlers make (reset when a note is loaded, add and remove tags, save, and close). */
module NoteEditor {
  import opened Schema
  import opened Seqs
  import opened Text

  /** The most tags the editor lets a note carry. */
  const MaxTags := 8

  /** tag.replace(/^#+/, ""): the leading run of '#' removed. */
  function StripHashes(s: string): (r: string)
    ensures |r| <= |s|
    ensures r == [] || r[0] != '#'
    ensures forall i :: 0 <= i < |s| - |r| ==> s[i] == '#'
  {
    if s != [] && s[0] == '#' then StripHashes(s[1..]) else s
  }

  /** Text that does not start with '#' loses nothing, and one leading '#' more changes nothing. */
  lemma StripHashesFacts(s: string)
    ensures s == [] || s[0] != '#' ==> StripHashes(s) == s
    ensures StripHashes("#" + s) == StripHashes(s)
  {
    assert ("#" + s)[1..] == s;
  }

  /** A later word of a camel-cased tag: its first character upper-cased, the rest lower-cased. */
  function Capitalize(w: string): string {
    if w == [] then [] else [UpperChar(w[0])] + Lower(w[1..])
  }

  function CapitalizeEach(words: seq<string>): string {
    if words == [] then "" else Capitalize(words[0]) + CapitalizeEach(words[1..])
  }

  /** The words joined camel-case: the first lower-cased, every later one capitalised. */
  function CamelJoin(words: seq<string>): string
    requires |words| >= 1
  {
    Lower(words[0]) + CapitalizeEach(words[1..])
  }

  /** The text of a tag after its '#': camel-cased when it holds a space, lower-cased when it does not. */
  function TagText(u: string): string {
    if ' ' in u then CamelJoin(SplitSpaces(u)) else Lower(u)
  }

  /** The normal form of a typed tag: blank input gives "", otherwise '#' followed by the tag text of the
      trimmed input without its leading '#'s. */
  function NormalizeTag(raw: string): (r: string)
    ensures r == "" <==> IsBlank(raw)
    ensures r != "" ==> r[0] == '#'
  {
    var t := Trim(raw);
    if t == "" then "" else "#" + TagText(StripHashes(t))
  }

  /** A non-blank tag is '#' and the tag text of its trimmed input without the leading '#'s. */
  lemma NormalizeNonBlank(raw: string)
    requires Trim(raw) != ""
    ensures NormalizeTag(raw) == "#" + TagText(StripHashes(Trim(raw)))
  {
  }

  /** Lower-casing neither makes nor removes a white-space character. */
  lemma LowerSpaces(s: string)
    ensures |Lower(s)| == |s|
    ensures forall i :: 0 <= i < |s| ==> (IsSpace(Lower(s)[i]) <==> IsSpace(s[i]))
    ensures forall i :: 0 <= i < |s| ==> (Lower(s)[i] == '#' <==> s[i] == '#')
  {
    LowerAt(s);
  }

  lemma {:induction false} CapitalizeEachNoSpace(words: seq<string>)
    requires forall k, i :: 0 <= k < |words| && 0 <= i < |words[k]| ==> !IsSpace(words[k][i])
    ensures ' ' !in CapitalizeEach(words)
  {
    if words != [] {
      CapitalizeEachNoSpace(words[1..]);
      var w := words[0];
      if w != [] {
        LowerSpaces(w[1..]);
        assert forall i :: 0 <= i < |w[1..]| ==> !IsSpace(w[1..][i]);
        assert ' ' !in Lower(w[1..]);
      }
    }
  }

  /** Tag text never holds a space: spaced text is split on white space and the pieces joined, and text
      without one keeps none after lower-casing. */
  lemma TagTextNoSpace(u: string)
    ensures ' ' !in TagText(u)
  {
    if ' ' in u {
      var words := SplitSpaces(u);
      SplitSpacesNoSpace(u);
      CapitalizeEachNoSpace(words[1..]);
      LowerSpaces(words[0]);
      assert ' ' !in Lower(words[0]);
    } else {
      LowerAt(u);
      assert forall i :: 0 <= i < |u| ==> Lower(u)[i] != ' ';
    }
  }

  /** A normalised tag never holds a space. */
  lemma NormalizedHasNoSpace(raw: string)
    ensures ' ' !in NormalizeTag(raw)
  {
    TagTextNoSpace(StripHashes(Trim(raw)));
  }

  /** The input's leading '#'s are gone: what follows the tag's own '#' is the normal form of the trimmed
      text after them. */
  lemma NormalizeStripsHashes(raw: string)
    requires !IsBlank(raw)
    ensures var u := StripHashes(Trim(raw));
      (u == [] || u[0] != '#') && Trim(raw) == Trim(raw)[..|Trim(raw)| - |u|] + u &&
      forall i :: 0 <= i < |Trim(raw)| - |u| ==> Trim(raw)[i] == '#'
  {
    StripHashesSuffix(Trim(raw));
  }

  /** What is left after the leading '#'s is a suffix of the input. */
  lemma {:induction false} StripHashesSuffix(s: string)
    ensures StripHashes(s) == s[|s| - |StripHashes(s)|..]
  {
    if s != [] && s[0] == '#' {
      StripHashesSuffix(s[1..]);
    }
  }

  /** Trimming leaves a string alone when it neither starts nor ends with white space. */
  lemma TrimNoop(s: string)
    requires s != [] ==> !IsSpace(s[0]) && !IsSpace(s[|s| - 1])
    ensures Trim(s) == s
  {
  }

  /** Lower-cased text keeps a first character other than '#' and holds a space only where the text
      did; such text is its own tag text and loses nothing to the '#' stripping. */
  lemma LowerTagText(u: string)
    requires u == [] || u[0] != '#'
    requires ' ' !in u
    ensures StripHashes(Lower(u)) == Lower(u) && TagText(Lower(u)) == Lower(u)
  {
    LowerAt(u);
    if u != [] {
      assert Lower(u)[0] == LowerChar(u[0]);
    }
    StripHashesFacts(Lower(u));
    assert forall i :: 0 <= i < |u| ==> Lower(u)[i] != ' ';
    LowerIdempotent(u);
  }

  /** '#' followed by the lower-cased rest of a trimmed string after its '#'s is already trimmed. */
  lemma HashLowerTrimmed(t: string)
    requires t != [] && !IsSpace(t[|t| - 1])
    ensures Trim("#" + Lower(StripHashes(t))) == "#" + Lower(StripHashes(t))
  {
    var u := StripHashes(t);
    StripHashesSuffix(t);
    LowerAt(u);
    var r := "#" + Lower(u);
    if u != [] {
      assert u[|u| - 1] == t[|t| - 1];
      assert r[|r| - 1] == LowerChar(u[|u| - 1]);
    }
    TrimNoop(r);
  }

  /** A tag typed as one word (no space after its '#'s) is already in normal form once normalised:
      normalising it again changes nothing. */
  lemma NormalizeSingleWordStable(raw: string)
    requires ' ' !in StripHashes(Trim(raw))
    ensures NormalizeTag(NormalizeTag(raw)) == NormalizeTag(raw)
  {
    var t := Trim(raw);
    if t != "" {
      var u := StripHashes(t);
      var r := "#" + Lower(u);
      TrimEnds(raw);
      HashLowerTrimmed(t);
      LowerTagText(u);
      StripHashesFacts(Lower(u));
      NormalizeNonBlank(raw);
      NormalizeNonBlank(r);
    }
  }

  /** Two words joined by a space are already trimmed. */
  lemma TwoWordsTrimmed(a: string, b: string)
    requires a != [] && b != [] && Word(a) && Word(b)
    ensures Trim(a + " " + b) == a + " " + b
  {
    WordAt(a);
    WordAt(b);
    var s := a + " " + b;
    assert s[0] == a[0] && s[|s| - 1] == b[|b| - 1];
    TrimNoop(s);
  }

  /** The tag text of two words joined by a space is the first lower-cased and the second capitalised. */
  lemma TwoWordsText(a: string, b: string)
    requires Word(a) && Word(b)
    ensures TagText(a + " " + b) == Lower(a) + Capitalize(b)
  {
    var s := a + " " + b;
    assert s[|a|] == ' ';
    SplitSpacesFirst(a, b);
    if b != [] {
      WordAt(b);
    }
    SplitSpacesNone(b);
    assert CapitalizeEach([b]) == Capitalize(b);
  }

  /** A two-word tag is camel-cased: the first word lower-cased, the second capitalised, joined without
      the space ("My Tag" becomes "#myTag"). */
  lemma CamelCasedTag(a: string, b: string)
    requires a != [] && b != [] && Word(a) && Word(b) && a[0] != '#'
    ensures NormalizeTag(a + " " + b) == "#" + (Lower(a) + Capitalize(b))
  {
    var s := a + " " + b;
    assert NormalizeTag(s) == "#" + Lower(a) + Capitalize(b) by {
      TwoWordsTrimmed(a, b);
      assert s[0] == a[0];
      StripHashesFacts(s);
      TwoWordsText(a, b);
      NormalizeNonBlank(s);
    }
    AppendAssoc("#", Lower(a), Capitalize(b));
  }

  lemma AppendAssoc<T>(x: seq<T>, y: seq<T>, z: seq<T>)
    ensures x + y + z == x + (y + z)
  {
  }

  /** Capitalising keeps the length, upper-cases the first character, and lower-casing undoes it. */
  lemma CapitalizeFacts(b: string)
    requires b != []
    ensures |Capitalize(b)| == |b| && Capitalize(b)[0] == UpperChar(b[0])
    ensures Lower(Capitalize(b)) == Lower(b)
    ensures forall i :: 1 <= i < |b| ==> Capitalize(b)[i] == LowerChar(b[i])
  {
    LowerAt(b[1..]);
    LowerIdempotent(b[1..]);
    var c := Capitalize(b);
    assert c == [UpperChar(b[0])] + Lower(b[1..]);
    LowerAppend([UpperChar(b[0])], Lower(b[1..]));
    assert Lower([UpperChar(b[0])]) == [LowerChar(b[0])];
    LowerAppend([b[0]], b[1..]);
    assert Lower([b[0]]) == [LowerChar(b[0])];
    assert b == [b[0]] + b[1..];
  }

  /** A camel-cased pair of words is itself a word that does not start with '#'. */
  lemma CamelWord(a: string, b: string)
    requires a != [] && b != [] && Word(a) && Word(b) && a[0] != '#'
    ensures var x := Lower(a) + Capitalize(b);
      x != [] && x[0] != '#' && ' ' !in x && !IsSpace(x[|x| - 1])
  {
    WordAt(a);
    WordAt(b);
    LowerAt(a);
    CapitalizeFacts(b);
    var x := Lower(a) + Capitalize(b);
    assert x[0] == LowerChar(a[0]);
    forall i | 0 <= i < |x| ensures !IsSpace(x[i]) {
      if i < |a| {
        assert x[i] == LowerChar(a[i]);
      } else if i == |a| {
        assert x[i] == UpperChar(b[0]);
      } else {
        assert x[i] == LowerChar(b[i - |a|]);
      }
    }
  }

  /** A camel-cased pair of words normalises again to both words lower-cased. */
  lemma CamelRenormalized(a: string, b: string)
    requires a != [] && b != [] && Word(a) && Word(b) && a[0] != '#'
    ensures NormalizeTag("#" + (Lower(a) + Capitalize(b))) == "#" + Lower(a + b)
  {
    var x := Lower(a) + Capitalize(b);
    CamelWord(a, b);
    TrimNoop("#" + x);
    StripHashesFacts(x);
    NormalizeNonBlank("#" + x);
    CapitalizeFacts(b);
    LowerAppend(Lower(a), Capitalize(b));
    LowerIdempotent(a);
    LowerAppend(a, b);
  }

  /** When the second word starts with a letter, its camel-cased form differs from the lower-cased one. */
  lemma CamelDiffersFromLower(a: string, b: string)
    requires b != []
    requires 'a' <= b[0] <= 'z' || 'A' <= b[0] <= 'Z'
    ensures "#" + (Lower(a) + Capitalize(b)) != "#" + Lower(a + b)
  {
    LowerAt(a);
    LowerAt(a + b);
    CapitalizeFacts(b);
    assert ("#" + (Lower(a) + Capitalize(b)))[|a| + 1] == UpperChar(b[0]);
    assert ("#" + Lower(a + b))[|a| + 1] == LowerChar(b[0]);
  }

  /** Normalising is not idempotent on camel-cased tags: when the second word starts with a letter, the
      camel-cased tag normalises again to the whole text lower-cased ("#myTag" becomes "#mytag"). */
  lemma CamelTagNotStable(a: string, b: string)
    requires a != [] && b != [] && Word(a) && Word(b) && a[0] != '#'
    requires 'a' <= b[0] <= 'z' || 'A' <= b[0] <= 'Z'
    ensures var camel := NormalizeTag(a + " " + b);
      NormalizeTag(camel) == "#" + Lower(a + b) != camel
  {
    CamelCasedTag(a, b);
    CamelRenormalized(a, b);
    CamelDiffersFromLower(a, b);
  }

  /** The tags an input yields: with a '#' in it, one normalised tag per non-empty trimmed '#'-separated
      piece; otherwise the whole input as one normalised tag. */
  function CandidateTags(input: string): (r: seq<string>)
  {
    if '#' in input then
      var pieces := Filter(MapTrim(SplitChar(input, '#')), NonEmpty);
      MapNormalize(pieces)
    else
      [NormalizeTag(input)]
  }

  predicate NonEmpty(piece: string) {
    piece != ""
  }

  /** The test a candidate passes to be added: non-empty and not among the existing tags. */
  function IsNewTag(existing: seq<string>): string -> bool {
    (t: string) => t != "" && t !in existing
  }

  function MapTrim(pieces: seq<string>): (r: seq<string>)
    ensures |r| == |pieces| && forall i :: 0 <= i < |pieces| ==> r[i] == Trim(pieces[i])
  {
    seq(|pieces|, i requires 0 <= i < |pieces| => Trim(pieces[i]))
  }

  function MapNormalize(pieces: seq<string>): (r: seq<string>)
    ensures |r| == |pieces| && forall i :: 0 <= i < |pieces| ==> r[i] == NormalizeTag(pieces[i])
  {
    seq(|pieces|, i requires 0 <= i < |pieces| => NormalizeTag(pieces[i]))
  }

  /** The candidates that are non-empty and not already on the note, in their order, every one of them.
      Two equal candidates of one input both survive. */
  function FreshTags(input: string, existing: seq<string>): (r: seq<string>)
    ensures forall i :: 0 <= i < |r| ==> r[i] != "" && r[i] !in existing
    ensures IsSubseq(r, CandidateTags(input))
    ensures forall t :: t in CandidateTags(input) && t != "" && t !in existing ==> t in r
  {
    FilterIsSubseq(CandidateTags(input), IsNewTag(existing));
    FilterMembers(CandidateTags(input), IsNewTag(existing));
    Filter(CandidateTags(input), IsNewTag(existing))
  }

  /** A word is already trimmed, also once a space is added after it. */
  lemma WordTrimmed(w: string)
    requires w != [] && Word(w)
    ensures Trim(w) == w && Trim(w + " ") == w
  {
    WordAt(w);
    TrimNoop(w);
    assert (w + " ")[0] == w[0];
    assert (w + " ")[..|w|] == w;
  }

  /** "#a #b" gives one tag per '#'-marked word, in order: the normal forms of a and b. */
  lemma HashSeparatedTags(a: string, b: string)
    requires a != [] && b != [] && Word(a) && Word(b) && '#' !in a && '#' !in b
    ensures FreshTags("#" + a + " #" + b, []) == [NormalizeTag(a), NormalizeTag(b)]
  {
    HashCandidateTags(a, b);
    WordTagsAllNew(a, b);
  }

  /** The candidates of "#a #b" are the normal forms of a and b. */
  lemma HashCandidateTags(a: string, b: string)
    requires a != [] && b != [] && Word(a) && Word(b) && '#' !in a && '#' !in b
    ensures CandidateTags("#" + a + " #" + b) == [NormalizeTag(a), NormalizeTag(b)]
  {
    var s := "#" + a + " #" + b;
    assert CandidateTags(s) == MapNormalize([a, b]) by {
      HashFilteredPieces(a, b);
      HashCandidates(s, [a, b]);
    }
    assert MapNormalize([a, b]) == [NormalizeTag(a), NormalizeTag(b)];
  }

  /** The normal forms of two words are all new to a note without tags. */
  lemma WordTagsAllNew(a: string, b: string)
    requires a != [] && b != [] && Word(a) && Word(b)
    ensures var tags := [NormalizeTag(a), NormalizeTag(b)];
      Filter(tags, IsNewTag([])) == tags
  {
    var tags := [NormalizeTag(a), NormalizeTag(b)];
    WordNormalNonEmpty(a);
    WordNormalNonEmpty(b);
    assert IsNewTag([])(tags[0]) && IsNewTag([])(tags[1]);
    FilterKeepsAll(tags, IsNewTag([]));
  }

  /** A word normalises to a non-empty tag. */
  lemma WordNormalNonEmpty(w: string)
    requires w != [] && Word(w)
    ensures NormalizeTag(w) != ""
  {
    WordTrimmed(w);
  }

  /** The non-empty trimmed pieces of "#a #b" are a and b. */
  lemma HashFilteredPieces(a: string, b: string)
    requires a != [] && b != [] && Word(a) && Word(b) && '#' !in a && '#' !in b
    ensures var s := "#" + a + " #" + b;
      '#' in s && Filter(MapTrim(SplitChar(s, '#')), NonEmpty) == [a, b]
  {
    HashPieces(a, b);
    WordTrimmed(a);
    WordTrimmed(b);
    assert MapTrim(["", a + " ", b]) == ["", a, b];
    FilterDropsOne(["", a, b], NonEmpty, 0);
    assert ["", a, b][1..] == [a, b];
  }

  /** An input with a '#' yields the normal forms of its non-empty trimmed pieces. */
  lemma HashCandidates(input: string, pieces: seq<string>)
    requires '#' in input && Filter(MapTrim(SplitChar(input, '#')), NonEmpty) == pieces
    ensures CandidateTags(input) == MapNormalize(pieces)
  {
  }

  /** "#a #b" contains '#' and splits on it into "", "a " and "b". */
  lemma HashPieces(a: string, b: string)
    requires '#' !in a && '#' !in b
    ensures var s := "#" + a + " #" + b;
      '#' in s && SplitChar(s, '#') == ["", a + " ", b]
  {
    var s := "#" + a + " #" + b;
    assert s == "" + ['#'] + ((a + " ") + ['#'] + b);
    assert '#' !in a + " ";
    SplitCharFirst("", '#', (a + " ") + ['#'] + b);
    SplitCharFirst(a + " ", '#', b);
    SplitCharNone(b, '#');
    assert s[0] == '#';
  }

  /** Duplicates inside one input are not removed: "#a #a" adds the same tag twice. */
  lemma DuplicateInOneInput(a: string)
    requires a != [] && Word(a) && '#' !in a
    ensures var added := FreshTags("#" + a + " #" + a, []);
      |added| == 2 && added[0] == added[1]
  {
    HashSeparatedTags(a, a);
  }

  /** The form state of the editor dialog. color, isPinned and tags are copied from the loaded note as
      they are, so a note stored without them leaves them undefined. */
  class Editor {
    var title: string
    var content: string
    var color: Option<string>
    var isPinned: Option<bool>
    var tags: Option<seq<string>>
    /** The tag input box. */
    var newTag: string

    /** The initial state, before any note is loaded. */
    constructor ()
      ensures title == "" && content == "" && color == Some("default") && isPinned == Some(false)
      ensures tags == Some([]) && newTag == ""
    {
      title, content, color, isPinned, tags, newTag := "", "", Some("default"), Some(false), Some([]), "";
    }

    /** The reset effect, run when the note or the open flag changes: the note's fields are loaded, or the
        defaults for a new note, and the tag input is cleared either way. */
    method Reset(note: Option<Note>)
      modifies this
      ensures note.Some? ==>
        title == note.value.title && content == note.value.content && color == note.value.color &&
        isPinned == note.value.isPinned && tags == note.value.tags
      ensures note.None? ==>
        title == "" && content == "" && color == Some("default") && isPinned == Some(false) && tags == Some([])
      ensures newTag == ""
    {
      if note.Some? {
        title, content, color, isPinned, tags := note.value.title, note.value.content, note.value.color,
          note.value.isPinned, note.value.tags;
      } else {
        title, content, color, isPinned, tags := "", "", Some("default"), Some(false), Some([]);
      }
      newTag := "";
    }

    /** handleAddTag. Blank input or a full list does nothing. Otherwise the fresh tags of the trimmed
        input are appended, as many as fit under the cap, and the input is cleared. On a list that is
        undefined the handler throws before changing anything. */
    method AddTag()
      modifies this`tags, this`newTag
      ensures IsBlank(old(newTag)) || old(tags).None? || |old(tags).value| >= MaxTags ==>
        tags == old(tags) && newTag == old(newTag)
      ensures !IsBlank(old(newTag)) && old(tags).Some? && |old(tags).value| < MaxTags ==>
        newTag == "" &&
        tags == Some(old(tags).value + Slice(FreshTags(Trim(old(newTag)), old(tags).value), MaxTags - |old(tags).value|))
    {
      if IsBlank(newTag) || tags.None? || |tags.value| >= MaxTags {
        return;
      }
      var newTags := FreshTags(Trim(newTag), tags.value);
      tags := Some(tags.value + Slice(newTags, MaxTags - |tags.value|));
      newTag := "";
    }

    /** handleRemoveTag: every copy of the tag goes, the others stay in order. On a list that is undefined
        the handler throws before changing anything. */
    method RemoveTag(tag: string)
      modifies this`tags
      ensures old(tags).None? ==> tags == None
      ensures old(tags).Some? ==> tags == Some(Filter(old(tags).value, IsOtherTag(tag)))
    {
      if tags.Some? {
        tags := Some(Filter(tags.value, IsOtherTag(tag)));
      }
    }

    /** handleSave: the note data is handed on only when the title and the content are both non-blank,
        and then with both trimmed. */
    method Save() returns (saved: Option<InsertNote>)
      ensures saved.Some? <==> !IsBlank(title) && !IsBlank(content)
      ensures saved.Some? ==>
        saved.value.title == Trim(title) && saved.value.content == Trim(content) &&
        saved.value.color == color && saved.value.isPinned == isPinned && saved.value.tags == tags
    {
      if IsBlank(title) || IsBlank(content) {
        return None;
      }
      saved := Some(InsertNote(Trim(title), Trim(content), color, isPinned, tags));
    }

    /** handleDialogClose: closing with a non-blank title and content saves instead of closing; every other
        change of the open flag is passed on. */
    method DialogClose(isOpen: bool) returns (action: CloseAction)
      ensures action.SaveInstead? <==> !isOpen && !IsBlank(title) && !IsBlank(content)
      ensures action.SaveInstead? ==>
        action.data == InsertNote(Trim(title), Trim(content), color, isPinned, tags)
      ensures action.PassOn? ==> action.open == isOpen
    {
      if !isOpen && !IsBlank(title) && !IsBlank(content) {
        var saved := Save();
        return SaveInstead(saved.value);
      }
      action := PassOn(isOpen);
    }
  }

  /** What closing the dialog does: hand the note data to the save callback, or report the new open flag. */
  datatype CloseAction = SaveInstead(data: InsertNote) | PassOn(open: bool)

  /** Adding tags keeps the old tags as a prefix, adds only non-empty tags not already present, never goes
      past the cap, and clears nothing it should not: the list grows by at most MaxTags - |old|. */
  lemma AddedTags(input: string, existing: seq<string>)
    requires |existing| < MaxTags
    ensures var added := Slice(FreshTags(input, existing), MaxTags - |existing|);
      |existing + added| <= MaxTags &&
      (existing + added)[..|existing|] == existing &&
      forall i :: 0 <= i < |added| ==> added[i] != "" && added[i] !in existing && added[i][0] == '#'
  {
    var newTags := FreshTags(input, existing);
    var added := Slice(newTags, MaxTags - |existing|);
    forall i | 0 <= i < |added|
      ensures added[i] != "" && added[i] !in existing && added[i][0] == '#'
    {
      assert added[i] == newTags[i];
      FilterMembers(CandidateTags(input), IsNewTag(existing));
      assert newTags[i] in CandidateTags(input);
      var j :| 0 <= j < |CandidateTags(input)| && CandidateTags(input)[j] == newTags[i];
      if '#' !in input {
        assert j == 0;
      }
    }
  }

  /** The test a tag passes to stay when another one is removed. */
  function IsOtherTag(tag: string): string -> bool {
    (t: string) => t != tag
  }

  /** Removing a tag: it is gone, every other tag stays, and the order is kept. */
  lemma RemovedTag(tags: seq<string>, tag: string)
    ensures var r := Filter(tags, IsOtherTag(tag));
      tag !in r && IsSubseq(r, tags) && forall t :: t in tags && t != tag ==> t in r
  {
    var r := Filter(tags, IsOtherTag(tag));
    FilterIsSubseq(tags, IsOtherTag(tag));
    forall t | t in tags && t != tag ensures t in r {
      var i :| 0 <= i < |tags| && tags[i] == t;
    }
  }
}
