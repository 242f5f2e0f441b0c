/** `String.prototype.split` and `Array.prototype.join` for a one-character
    separator, the two primitives the domain splitter is built from. */
module SplitJoin {

  /** No piece contains the separator. */
  predicate SepFree(parts: seq<string>, sep: char)
  {
    forall i :: 0 <= i < |parts| ==> sep !in parts[i]
  }

  /** The scan behind `Split`: `piece` is the part of the current piece read so
      far; each separator closes it and starts an empty one, the end of the input
      closes the last one. */
  function SplitFrom(s: string, sep: char, piece: string): (parts: seq<string>)
    requires sep !in piece
    ensures |parts| >= 1
    ensures SepFree(parts, sep)
    decreases |s|
  {
    if s == [] then [piece]
    else if s[0] == sep then [piece] + SplitFrom(s[1..], sep, [])
    else SplitFrom(s[1..], sep, piece + [s[0]])
  }

  /** The pieces of `s` between occurrences of `sep`, as `s.split(sep)` returns
      them: there is always at least one piece (`"".split(".")` is `[""]`) and no
      piece holds a separator. */
  function Split(s: string, sep: char): (parts: seq<string>)
    ensures |parts| >= 1
    ensures SepFree(parts, sep)
  {
    SplitFrom(s, sep, [])
  }

  /** The scan closes one piece per separator, plus the last one. */
  lemma {:induction false} SplitFromCount(s: string, sep: char, piece: string)
    requires sep !in piece
    ensures |SplitFrom(s, sep, piece)| == multiset(s)[sep] + 1
    decreases |s|
  {
    if s != [] {
      assert s == [s[0]] + s[1..];
      if s[0] == sep {
        SplitFromCount(s[1..], sep, []);
      } else {
        SplitFromCount(s[1..], sep, piece + [s[0]]);
      }
    }
  }

  /** The scan's first piece begins with the piece read so far, so it can only
      be empty when that piece is empty and the input starts with a separator or
      ends. */
  lemma {:induction false} SplitFromFirst(s: string, sep: char, piece: string)
    requires sep !in piece
    ensures |SplitFrom(s, sep, piece)[0]| >= |piece|
    ensures s != [] && s[0] == sep ==> SplitFrom(s, sep, piece)[0] == piece
    decreases |s|
  {
    if s != [] && s[0] != sep {
      SplitFromFirst(s[1..], sep, piece + [s[0]]);
    }
  }

  /** A split has one more piece than the string has separators. */
  lemma SplitCount(s: string, sep: char)
    ensures |Split(s, sep)| == multiset(s)[sep] + 1
  {
    SplitFromCount(s, sep, []);
  }

  /** The pieces with `sep` between consecutive ones, as `parts.join(sep)`
      returns them; an empty list joins to the empty string. */
  function Join(parts: seq<string>, sep: char): string
  {
    if |parts| == 0 then []
    else if |parts| == 1 then parts[0]
    else parts[0] + [sep] + Join(parts[1..], sep)
  }

  /** Joining separator-free pieces puts exactly one separator between each
      neighbouring pair and no other. */
  lemma {:induction false} JoinSepCount(parts: seq<string>, sep: char)
    requires SepFree(parts, sep)
    ensures multiset(Join(parts, sep))[sep] == if parts == [] then 0 else |parts| - 1
    decreases |parts|
  {
    if |parts| > 1 {
      JoinSepCount(parts[1..], sep);
    }
  }

  /** One unfolding of `Join` for a first piece followed by the rest. */
  lemma JoinCons(first: string, rest: seq<string>, sep: char)
    ensures Join([first] + rest, sep) == if rest == [] then first else first + [sep] + Join(rest, sep)
  {
    assert ([first] + rest)[1..] == rest;
  }

  /** A join is empty exactly when there is no piece, or one empty piece: two
      or more pieces always leave a separator between them. */
  lemma JoinEmpty(parts: seq<string>, sep: char)
    ensures Join(parts, sep) == [] <==> parts == [] || (|parts| == 1 && parts[0] == [])
  {
    if |parts| > 1 {
      assert |Join(parts, sep)| >= 1;
    }
  }

  /** Joining what the scan produces gives back the piece read so far followed
      by the unread input. */
  lemma {:induction false} JoinOfSplitFrom(s: string, sep: char, piece: string)
    requires sep !in piece
    ensures Join(SplitFrom(s, sep, piece), sep) == piece + s
    decreases |s|
  {
    if s == [] {
      assert piece + s == piece;
    } else if s[0] == sep {
      JoinOfSplitFrom(s[1..], sep, []);
      assert [] + s[1..] == s[1..];
      ClosePiece(s, sep, piece);
    } else {
      JoinOfSplitFrom(s[1..], sep, piece + [s[0]]);
      assert piece + [s[0]] + s[1..] == piece + s by {
        assert s == [s[0]] + s[1..];
      }
    }
  }

  /** The step of `JoinOfSplitFrom` at a separator: the piece is closed and the
      join of the remaining pieces follows it after the separator. */
  lemma ClosePiece(s: string, sep: char, piece: string)
    requires s != [] && s[0] == sep && sep !in piece
    requires Join(SplitFrom(s[1..], sep, []), sep) == s[1..]
    ensures Join(SplitFrom(s, sep, piece), sep) == piece + s
  {
    var rest := SplitFrom(s[1..], sep, []);
    assert SplitFrom(s, sep, piece) == [piece] + rest;
    JoinCons(piece, rest, sep);
    SeparatorFirst(s, sep, piece);
  }

  /** A string that starts with the separator, put after a piece. */
  lemma SeparatorFirst(s: string, sep: char, piece: string)
    requires s != [] && s[0] == sep
    ensures piece + [sep] + s[1..] == piece + s
  {
    assert s == [sep] + s[1..];
  }

  /** Joining the pieces of a split restores the string. */
  lemma JoinOfSplit(s: string, sep: char)
    ensures Join(Split(s, sep), sep) == s
  {
    JoinOfSplitFrom(s, sep, []);
    assert [] + s == s;
  }

  /** The scan reads a separator-free stretch into the current piece. */
  lemma {:induction false} SplitFromFree(p: string, t: string, sep: char, piece: string)
    requires sep !in piece && sep !in p
    ensures SplitFrom(p + t, sep, piece) == SplitFrom(t, sep, piece + p)
    decreases |p|
  {
    if p == [] {
      assert p + t == t && piece + p == piece;
    } else {
      var pt := p + t;
      assert pt[0] == p[0] && pt[1..] == p[1..] + t;
      SplitFromFree(p[1..], t, sep, piece + [p[0]]);
      assert piece + [p[0]] + p[1..] == piece + p by {
        assert p == [p[0]] + p[1..];
      }
    }
  }

  /** Splitting the join of separator-free pieces gives the pieces back; with
      `JoinOfSplit` this makes `Split` the unique separator-free factorisation. */
  lemma {:induction false} SplitOfJoin(parts: seq<string>, sep: char)
    requires |parts| >= 1 && SepFree(parts, sep)
    ensures Split(Join(parts, sep), sep) == parts
    decreases |parts|
  {
    var p := parts[0];
    if |parts| == 1 {
      SplitFromFree(p, [], sep, []);
      assert p + [] == p && [] + p == p;
    } else {
      var tail := Join(parts[1..], sep);
      SplitOfJoin(parts[1..], sep);
      var t := [sep] + tail;
      assert Join(parts, sep) == p + t;
      SplitFromFree(p, t, sep, []);
      assert [] + p == p;
      assert t[0] == sep && t[1..] == tail;
      assert SplitFrom(t, sep, p) == [p] + parts[1..];
      assert parts == [p] + parts[1..];
    }
  }

  /** Joining a concatenation is joining each half with one separator between. */
  lemma {:induction false} JoinAppend(a: seq<string>, b: seq<string>, sep: char)
    requires |a| >= 1 && |b| >= 1
    ensures Join(a + b, sep) == Join(a, sep) + [sep] + Join(b, sep)
    decreases |a|
  {
    assert (a + b)[0] == a[0];
    if |a| == 1 {
      assert (a + b)[1..] == b;
    } else {
      assert (a + b)[1..] == a[1..] + b;
      JoinAppend(a[1..], b, sep);
    }
  }
}
