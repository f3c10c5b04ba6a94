/**
 * `getInitials`: the upper-cased first letters of the space-separated words
 * of a name, at most two of them.
 */
module Helpers {
  import opened Text

  /** `words.map(word => word.charAt(0))`. */
  function FirstChars(words: seq<string>): (r: seq<string>)
    ensures |r| == |words|
    ensures forall k :: 0 <= k < |r| ==> |r[k]| <= 1 && (r[k] == "" <==> words[k] == "")
    ensures forall k :: 0 <= k < |r| && r[k] != "" ==> r[k][0] == words[k][0]
  {
    seq(|words|, k requires 0 <= k < |words| => CharAt(words[k], 0))
  }

  /** `getInitials(name)`: split on `' '`, take the first character of each
      piece, join them, upper-case, keep the first two characters. */
  function GetInitials(name: string): (r: string)
    ensures |r| <= 2
    ensures forall i :: 0 <= i < |r| ==> !IsLower(r[i])
  {
    Slice(ToUpper(Join(FirstChars(Split(name, ' ')), "")), 0, 2)
  }

  /** Reference definition: the characters of `s` that start a word, that is
      that are not a space and come first or right after a space. `atStart`
      says whether the character before `s` was a space (or there was none). */
  function WordStartsFrom(s: string, atStart: bool): string
    decreases |s|
  {
    if |s| == 0 then ""
    else (if atStart && s[0] != ' ' then [s[0]] else "") + WordStartsFrom(s[1..], s[0] == ' ')
  }

  function WordStarts(s: string): string {
    WordStartsFrom(s, true)
  }

  /** Whether a word may start right after `s`, given the same for `s`. */
  function AfterFlag(s: string, atStart: bool): bool {
    if |s| == 0 then atStart else s[|s| - 1] == ' '
  }

  /** `join('')` with an empty separator: the first piece followed by the
      join of the rest, for any number of further pieces (none included). */
  lemma JoinNothingCons(x: string, ws: seq<string>)
    ensures Join([x] + ws, "") == x + Join(ws, "")
  {
  }

  /** The first characters of a list made of a head and a tail. */
  lemma FirstCharsCons(x: string, ws: seq<string>)
    ensures FirstChars([x] + ws) == [CharAt(x, 0)] + FirstChars(ws)
  {
  }

  /** Joining the first characters of the pieces of `s` gives its word
      starts; the pieces after the first give the word starts of `s` read as
      the continuation of a word. */
  lemma {:induction false} FirstCharsOfPieces(s: string)
    ensures Join(FirstChars(Split(s, ' ')), "") == WordStartsFrom(s, true)
    ensures Join(FirstChars(Split(s, ' ')[1..]), "") == WordStartsFrom(s, false)
    decreases |s|
  {
    if |s| > 0 {
      var rest := Split(s[1..], ' ');
      FirstCharsOfPieces(s[1..]);
      if s[0] == ' ' {
        assert Split(s, ' ') == [""] + rest;
        FirstCharsCons("", rest);
        JoinNothingCons("", FirstChars(rest));
        assert ([""] + rest)[1..] == rest;
      } else {
        assert Split(s, ' ') == [[s[0]] + rest[0]] + rest[1..];
        FirstCharsCons([s[0]] + rest[0], rest[1..]);
        JoinNothingCons([s[0]], FirstChars(rest[1..]));
        assert ([[s[0]] + rest[0]] + rest[1..])[1..] == rest[1..];
      }
    }
  }

  /** `getInitials` is the first two upper-cased word starts. */
  lemma InitialsAreWordStarts(name: string)
    ensures GetInitials(name) == Slice(ToUpper(WordStarts(name)), 0, 2)
  {
    FirstCharsOfPieces(name);
  }

  /** The word starts of a concatenation are those of each part, the second
      part read in the context the first leaves. */
  lemma {:induction false} WordStartsAppend(a: string, b: string, atStart: bool)
    ensures WordStartsFrom(a + b, atStart) == WordStartsFrom(a, atStart) + WordStartsFrom(b, AfterFlag(a, atStart))
    decreases |a|
  {
    if |a| == 0 {
      assert a + b == b;
    } else {
      var c, t := a[0], a[1..];
      WordStartsAppend(t, b, c == ' ');
      assert a == [c] + t;
      assert a + b == [c] + (t + b);
      WordStartsCons(c, t + b, atStart);
      WordStartsCons(c, t, atStart);
      assert AfterFlag(a, atStart) == AfterFlag(t, c == ' ') by {
        if |t| > 0 { assert a[|a| - 1] == t[|t| - 1]; }
      }
    }
  }

  /** One step of the word-start scan. */
  lemma WordStartsCons(c: char, s: string, atStart: bool)
    ensures WordStartsFrom([c] + s, atStart)
         == (if atStart && c != ' ' then [c] else "") + WordStartsFrom(s, c == ' ')
  {
  }

  /** Leading spaces add no initial. */
  lemma LeadingSpaceIgnored(name: string)
    ensures GetInitials(" " + name) == GetInitials(name)
  {
    InitialsAreWordStarts(" " + name);
    InitialsAreWordStarts(name);
    WordStartsAppend(" ", name, true);
  }

  /** Trailing spaces add no initial. */
  lemma TrailingSpaceIgnored(name: string)
    ensures GetInitials(name + " ") == GetInitials(name)
  {
    InitialsAreWordStarts(name + " ");
    InitialsAreWordStarts(name);
    WordStartsAppend(name, " ", true);
  }

  /** A repeated space between two parts adds no initial. */
  lemma RepeatedSpaceIgnored(a: string, b: string)
    ensures GetInitials(a + "  " + b) == GetInitials(a + " " + b)
  {
    InitialsAreWordStarts(a + "  " + b);
    InitialsAreWordStarts(a + " " + b);
    WordStartsAppend(a + "  ", b, true);
    WordStartsAppend(a, "  ", true);
    WordStartsAppend(a + " ", b, true);
    WordStartsAppend(a, " ", true);
  }

  /** The first character of each of the given words. */
  function Heads(ws: seq<string>): (r: string)
    requires forall k :: 0 <= k < |ws| ==> ws[k] != ""
    ensures |r| == |ws|
  {
    seq(|ws|, k requires 0 <= k < |ws| => ws[k][0])
  }

  lemma {:induction false} FirstCharsOfWords(ws: seq<string>)
    requires forall k :: 0 <= k < |ws| ==> ws[k] != ""
    ensures Join(FirstChars(ws), "") == Heads(ws)
    decreases |ws|
  {
    if |ws| > 0 {
      FirstCharsOfWords(ws[1..]);
      assert ws == [ws[0]] + ws[1..];
      FirstCharsCons(ws[0], ws[1..]);
      JoinNothingCons(CharAt(ws[0], 0), FirstChars(ws[1..]));
      assert Heads(ws) == [ws[0][0]] + Heads(ws[1..]);
    }
  }

  /** For a name made of non-empty words separated by single spaces, the
      initials are the upper-cased first letters of the first two words. */
  lemma InitialsOfWords(ws: seq<string>)
    requires |ws| >= 1
    requires forall k :: 0 <= k < |ws| ==> ws[k] != "" && ' ' !in ws[k]
    ensures GetInitials(Join(ws, " ")) == Slice(ToUpper(Heads(ws)), 0, 2)
  {
    SplitJoin(ws, ' ');
    FirstCharsOfWords(ws);
  }

  /** The empty name has no initials. */
  lemma EmptyNameHasNoInitials()
    ensures GetInitials("") == ""
  {
  }

  /** Worked example: a two-word name. */
  lemma TwoWordExample()
    ensures GetInitials("ada lovelace") == "AL"
  {
    assert Join(["ada", "lovelace"], " ") == "ada lovelace";
    InitialsOfWords(["ada", "lovelace"]);
  }

  /** Worked example: only the first two of three words count. */
  lemma ThreeWordExample()
    ensures GetInitials("Grace Brewster Hopper") == "GB"
  {
    assert Join(["Grace", "Brewster", "Hopper"], " ") == "Grace Brewster Hopper";
    InitialsOfWords(["Grace", "Brewster", "Hopper"]);
  }
}
