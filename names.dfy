/** The avatar initials of a testimonial card: the name is split on single
    spaces (as `String.prototype.split(' ')` does) and the first character of
    every part is kept, in order. Empty parts (from leading, trailing or
    doubled spaces) yield `undefined`, which `join('')` renders as nothing. */
module Names {

  /** `s.split(sep)` for a one-character separator: the maximal runs between
      separators, including empty ones; never an empty list. */
  function Split(s: string, sep: char): (parts: seq<string>)
    ensures |parts| >= 1
    ensures forall k :: 0 <= k < |parts| ==> sep !in parts[k]
    decreases |s|
  {
    if |s| == 0 then [""]
    else
      var rest := Split(s[1..], sep);
      if s[0] == sep then [""] + rest
      else [[s[0]] + rest[0]] + rest[1..]
  }

  /** `parts.join(sep)`. */
  function Join(parts: seq<string>, sep: char): string
  {
    if |parts| == 0 then ""
    else if |parts| == 1 then parts[0]
    else parts[0] + [sep] + Join(parts[1..], sep)
  }

  /** Joining the parts of a split with the same separator gives the string back:
      Split loses nothing but the separators. */
  lemma {:induction false} JoinSplit(s: string, sep: char)
    ensures Join(Split(s, sep), sep) == s
    decreases |s|
  {
    if |s| > 0 {
      var rest := Split(s[1..], sep);
      JoinSplit(s[1..], sep);
      if s[0] == sep {
        assert ([""] + rest)[1..] == rest;
      } else if |rest| > 1 {
        assert ([[s[0]] + rest[0]] + rest[1..])[1..] == rest[1..];
      }
      assert s == [s[0]] + s[1..];
    }
  }

  /** `part[0]` joined into a string: nothing for an empty part. */
  function FirstLetters(parts: seq<string>): string
  {
    if |parts| == 0 then ""
    else (if |parts[0]| == 0 then "" else [parts[0][0]]) + FirstLetters(parts[1..])
  }

  /** `name.split(' ').map(part => part[0]).join('')` */
  function Initials(name: string): string
  {
    FirstLetters(Split(name, ' '))
  }

  /** Reference definition: the non-space characters of `s` that begin a word,
      i.e. that stand first or right after a space. `atStart` says whether the
      character before `s` was a space (or there was none). */
  function WordStarts(s: string, atStart: bool): (r: string)
    ensures |r| <= |s|
    ensures ' ' !in r
  {
    if |s| == 0 then ""
    else if s[0] == ' ' then WordStarts(s[1..], true)
    else (if atStart then [s[0]] else "") + WordStarts(s[1..], false)
  }

  lemma {:induction false} FirstLettersOfSplit(s: string)
    ensures FirstLetters(Split(s, ' ')) == WordStarts(s, true)
    ensures FirstLetters(Split(s, ' ')[1..]) == WordStarts(s, false)
    decreases |s|
  {
    if |s| > 0 {
      var rest := Split(s[1..], ' ');
      FirstLettersOfSplit(s[1..]);
      if s[0] == ' ' {
        assert ([""] + rest)[1..] == rest;
      } else {
        var parts := [[s[0]] + rest[0]] + rest[1..];
        assert parts[1..] == rest[1..];
        assert parts[0][0] == s[0];
      }
    }
  }

  /** The initials are exactly the first characters of the space-separated words,
      in order; so they never contain a space and are no longer than the name. */
  lemma InitialsAreWordStarts(name: string)
    ensures Initials(name) == WordStarts(name, true)
    ensures ' ' !in Initials(name) && |Initials(name)| <= |name|
  {
    FirstLettersOfSplit(name);
  }

  lemma {:induction false} WordStartsOfWord(w: string, atStart: bool)
    requires ' ' !in w
    ensures WordStarts(w, atStart) == if |w| > 0 && atStart then [w[0]] else ""
  {
    if |w| > 0 {
      WordStartsOfWord(w[1..], false);
    }
  }

  lemma {:induction false} WordStartsAtSpace(a: string, b: string, atStart: bool)
    requires ' ' !in a
    ensures WordStarts(a + [' '] + b, atStart) == WordStarts(a, atStart) + WordStarts(b, true)
  {
    if |a| == 0 {
      assert a + [' '] + b == [' '] + b;
      assert ([' '] + b)[1..] == b;
    } else {
      assert (a + [' '] + b)[1..] == a[1..] + [' '] + b;
      WordStartsAtSpace(a[1..], b, false);
    }
  }

  /** A first and a last name, one space apart, give two initials. */
  lemma TwoWordInitials(first: string, last: string)
    requires |first| > 0 && |last| > 0 && ' ' !in first && ' ' !in last
    ensures Initials(first + " " + last) == [first[0], last[0]]
  {
    InitialsAreWordStarts(first + " " + last);
    WordStartsAtSpace(first, last, true);
    WordStartsOfWord(first, true);
    WordStartsOfWord(last, true);
  }
}
