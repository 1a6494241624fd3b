/**
 * `formatSettingKey` of the settings page: a setting's key such as `SMTP_from_NAME` becomes the
 * title-cased phrase `Smtp From Name` that is looked up among the translated setting names.
 * The chain is `replace(/_/g, ' ')`, `split(' ')`, per-word
 * `charAt(0).toUpperCase() + slice(1).toLowerCase()` and `join(' ')`.
 */
module KeyFormat {
  import opened Text

  /** `s.replace(/_/g, ' ')`. */
  function ReplaceUnderscores(s: string): (r: string)
    ensures |r| == |s|
    ensures forall i :: 0 <= i < |s| ==> r[i] == if s[i] == '_' then ' ' else s[i]
  {
    if s == [] then [] else [if s[0] == '_' then ' ' else s[0]] + ReplaceUnderscores(s[1..])
  }

  /** How often `c` occurs in `s`. */
  function Occurrences(s: string, c: char): nat
  {
    if s == [] then 0 else (if s[0] == c then 1 else 0) + Occurrences(s[1..], c)
  }

  /** `s.split(sep)` for a one-character separator: one more word than separators. */
  function Split(s: string, sep: char): (words: seq<string>)
    ensures |words| == Occurrences(s, sep) + 1
  {
    if s == [] then [""]
    else
      var rest := Split(s[1..], sep);
      if s[0] == sep then [""] + rest else [[s[0]] + rest[0]] + rest[1..]
  }

  /** `words.join(sep)`. */
  function Join(words: seq<string>, sep: char): string
  {
    if words == [] then ""
    else if |words| == 1 then words[0]
    else words[0] + [sep] + Join(words[1..], sep)
  }

  /** Joining the words of a split gives back the string that was split. */
  lemma {:induction false} JoinSplit(s: string, sep: char)
    ensures Join(Split(s, sep), sep) == s
  {
    if s != [] {
      var rest := Split(s[1..], sep);
      JoinSplit(s[1..], sep);
      if s[0] != sep {
        JoinConsHead(s[0], rest[0], rest[1..], sep);
        assert [rest[0]] + rest[1..] == rest;
      }
    }
  }

  /** No word of a split contains the separator. */
  lemma {:induction false} SplitWordsOmitSeparator(s: string, sep: char)
    ensures forall k :: 0 <= k < |Split(s, sep)| ==> sep !in Split(s, sep)[k]
  {
    if s != [] {
      SplitWordsOmitSeparator(s[1..], sep);
    }
  }

  lemma JoinConsHead(c: char, w: string, rest: seq<string>, sep: char)
    ensures Join([[c] + w] + rest, sep) == [c] + Join([w] + rest, sep)
  {
    var ws := [[c] + w] + rest;
    if rest != [] {
      assert ws[1..] == rest;
      assert ([w] + rest)[1..] == rest;
    }
  }

  /** One word: `word.charAt(0).toUpperCase() + word.slice(1).toLowerCase()`. */
  function Capitalize(word: string): string
  {
    if word == [] then [] else [ToUpperChar(word[0])] + ToLower(word[1..])
  }

  /** `words.map(Capitalize)`. */
  function CapitalizeAll(words: seq<string>): (r: seq<string>)
    ensures |r| == |words|
  {
    if words == [] then [] else [Capitalize(words[0])] + CapitalizeAll(words[1..])
  }

  /**
   * Title-casing character by character: a space stays a space, the first character after a
   * space (or at the start, when `atStart`) is upper-cased, any other is lower-cased.
   */
  function TitleFrom(s: string, atStart: bool): (r: string)
    ensures |r| == |s|
  {
    if s == [] then []
    else if s[0] == ' ' then [' '] + TitleFrom(s[1..], true)
    else [if atStart then ToUpperChar(s[0]) else ToLowerChar(s[0])] + TitleFrom(s[1..], false)
  }

  lemma {:induction false} TitleFromAt(s: string, atStart: bool, i: nat)
    requires i < |s|
    ensures TitleFrom(s, atStart)[i] ==
      if s[i] == ' ' then ' '
      else if (if i == 0 then atStart else s[i - 1] == ' ') then ToUpperChar(s[i])
      else ToLowerChar(s[i])
  {
    if i > 0 {
      TitleFromAt(s[1..], s[0] == ' ', i - 1);
      if i > 1 {
        assert s[1..][i - 2] == s[i - 1];
      }
    }
  }

  /**
   * Splitting at spaces, title-casing every word (or lower-casing the first one, when the text
   * does not start a word) and joining again is character-by-character title-casing.
   */
  lemma {:induction false} JoinCapitalized(s: string, atStart: bool)
    ensures var ws := Split(s, ' ');
      Join([if atStart then Capitalize(ws[0]) else ToLower(ws[0])] + CapitalizeAll(ws[1..]), ' ')
        == TitleFrom(s, atStart)
  {
    if s != [] {
      var rest := s[1..];
      var wr := Split(rest, ' ');
      if s[0] == ' ' {
        JoinCapitalized(rest, true);
        assert CapitalizeAll(wr) == [Capitalize(wr[0])] + CapitalizeAll(wr[1..]);
        var ws := [""] + CapitalizeAll(wr);
        assert ws[1..] == CapitalizeAll(wr);
      } else {
        JoinCapitalized(rest, false);
        var w := [s[0]] + wr[0];
        assert w[1..] == wr[0];
        var head := if atStart then ToUpperChar(s[0]) else ToLowerChar(s[0]);
        assert (if atStart then Capitalize(w) else ToLower(w)) == [head] + ToLower(wr[0]);
        assert Split(s, ' ')[1..] == wr[1..];
        JoinConsHead(head, ToLower(wr[0]), CapitalizeAll(wr[1..]), ' ');
      }
    }
  }

  /** A break between words in a setting key: an underscore or a space. */
  predicate IsBreak(c: char)
  {
    c == '_' || c == ' '
  }

  /**
   * `formatSettingKey(name)`: splitting, capitalising every word and joining amounts to
   * title-casing the text with underscores turned into spaces, so the length is kept.
   */
  function FormatSettingKey(name: string): (r: string)
    ensures r == TitleFrom(ReplaceUnderscores(name), true)
    ensures |r| == |name|
  {
    var u := ReplaceUnderscores(name);
    var words := Split(u, ' ');
    JoinCapitalized(u, true);
    assert CapitalizeAll(words) == [Capitalize(words[0])] + CapitalizeAll(words[1..]);
    Join(CapitalizeAll(words), ' ')
  }

  /**
   * What `formatSettingKey` does, character by character: it turns every underscore and space
   * into a space, upper-cases the first character of every word and lower-cases the rest.
   */
  lemma FormatSettingKeyAt(name: string, i: nat)
    requires i < |name|
    ensures FormatSettingKey(name)[i] ==
      if IsBreak(name[i]) then ' '
      else if i == 0 || IsBreak(name[i - 1]) then ToUpperChar(name[i])
      else ToLowerChar(name[i])
  {
    var u := ReplaceUnderscores(name);
    TitleFromAt(u, true, i);
    assert u[i] == ' ' <==> IsBreak(name[i]);
    assert i > 0 ==> (u[i - 1] == ' ' <==> IsBreak(name[i - 1]));
  }

  /** The formatted key has no underscore, and every space-separated word of it starts with a
      character that upper-casing leaves alone and continues with characters that lower-casing
      leaves alone. */
  lemma FormattedKeyIsTitleCased(name: string)
    ensures var r := FormatSettingKey(name);
      && '_' !in r
      && (r != [] && r[0] != ' ' ==> ToUpperChar(r[0]) == r[0])
      && (forall i :: 0 < i < |r| && r[i] != ' ' && r[i - 1] == ' ' ==> ToUpperChar(r[i]) == r[i])
      && (forall i :: 0 < i < |r| && r[i] != ' ' && r[i - 1] != ' ' ==> ToLowerChar(r[i]) == r[i])
  {
    var r := FormatSettingKey(name);
    forall i | 0 <= i < |r| ensures r[i] != '_' && (r[i] == ' ' <==> IsBreak(name[i])) {
      FormatSettingKeyAt(name, i);
      CaseMapsKeepBreaks(name[i]);
    }
    if r != [] {
      FormatSettingKeyAt(name, 0);
      CaseMapsKeepBreaks(name[0]);
    }
    forall i | 0 < i < |r| && r[i] != ' ' && r[i - 1] == ' '
      ensures ToUpperChar(r[i]) == r[i]
    {
      FormatSettingKeyAt(name, i);
      CaseMapsKeepBreaks(name[i]);
      FormatSettingKeyAt(name, i - 1);
      CaseMapsKeepBreaks(name[i - 1]);
    }
    forall i | 0 < i < |r| && r[i] != ' ' && r[i - 1] != ' '
      ensures ToLowerChar(r[i]) == r[i]
    {
      FormatSettingKeyAt(name, i);
      CaseMapsKeepBreaks(name[i]);
    }
  }

  lemma CaseMapsKeepBreaks(c: char)
    ensures IsBreak(ToUpperChar(c)) == IsBreak(c) && IsBreak(ToLowerChar(c)) == IsBreak(c)
    ensures ToUpperChar(c) != '_' || c == '_'
    ensures ToLowerChar(c) != '_' || c == '_'
    ensures ToUpperChar(ToUpperChar(c)) == ToUpperChar(c) && ToLowerChar(ToLowerChar(c)) == ToLowerChar(c)
  {
  }

  /** Formatting an already formatted key changes nothing. */
  lemma FormatSettingKeyIdempotent(name: string)
    ensures FormatSettingKey(FormatSettingKey(name)) == FormatSettingKey(name)
  {
    var r := FormatSettingKey(name);
    var r2 := FormatSettingKey(r);
    forall i | 0 <= i < |r| ensures IsBreak(r[i]) == IsBreak(name[i]) {
      FormatSettingKeyAt(name, i);
      CaseMapsKeepBreaks(name[i]);
    }
    forall i | 0 <= i < |r| ensures r2[i] == r[i] {
      FormatSettingKeyAt(name, i);
      FormatSettingKeyAt(r, i);
      CaseMapsKeepBreaks(name[i]);
    }
  }
}
