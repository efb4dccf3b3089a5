/** Splitting a sequence at a separator and joining the pieces again; used for
    the labels of a domain and for the lines of a journal. */
module Splitting {

  /** The pieces between separators; there is always at least one. */
  function Split<T(==)>(s: seq<T>, sep: T): (pieces: seq<seq<T>>)
    ensures pieces != []
  {
    if s == [] then [[]]
    else if s[0] == sep then [[]] + Split(s[1..], sep)
    else var rest := Split(s[1..], sep); [[s[0]] + rest[0]] + rest[1..]
  }

  function Join<T>(pieces: seq<seq<T>>, sep: T): seq<T>
    requires pieces != []
  {
    if |pieces| == 1 then pieces[0] else pieces[0] + [sep] + Join(pieces[1..], sep)
  }

  lemma {:induction false} JoinSplit<T>(s: seq<T>, sep: T)
    ensures Join(Split(s, sep), sep) == s
  {
    if s == [] {
    } else if s[0] == sep {
      JoinSplit(s[1..], sep);
      assert Split(s, sep)[1..] == Split(s[1..], sep);
    } else {
      JoinSplit(s[1..], sep);
      var rest := Split(s[1..], sep);
      assert Split(s, sep)[1..] == rest[1..];
    }
  }

  lemma {:induction false} SplitAt<T>(a: seq<T>, sep: T, b: seq<T>)
    ensures Split(a + [sep] + b, sep) == Split(a, sep) + Split(b, sep)
  {
    var s := a + [sep] + b;
    if a == [] {
      assert s[1..] == b;
    } else {
      assert s[1..] == a[1..] + [sep] + b;
      SplitAt(a[1..], sep, b);
    }
  }

  lemma {:induction false} SplitOne<T>(s: seq<T>, sep: T)
    requires sep !in s
    ensures Split(s, sep) == [s]
  {
    if s != [] {
      SplitOne(s[1..], sep);
      assert [s[0]] + s[1..] == s;
    }
  }

  lemma {:induction false} JoinAppend<T>(front: seq<seq<T>>, tail: seq<seq<T>>, sep: T)
    requires front != [] && tail != []
    ensures Join(front + tail, sep) == Join(front, sep) + [sep] + Join(tail, sep)
  {
    if |front| == 1 {
      assert (front + tail)[1..] == tail;
    } else {
      assert (front + tail)[1..] == front[1..] + tail;
      JoinAppend(front[1..], tail, sep);
    }
  }

  lemma {:induction false} JoinOfSplitPieces<T>(pieces: seq<seq<T>>, sep: T)
    requires pieces != []
    requires forall piece :: piece in pieces ==> sep !in piece
    ensures Split(Join(pieces, sep), sep) == pieces
  {
    SplitOne(pieces[0], sep);
    if |pieces| > 1 {
      JoinOfSplitPieces(pieces[1..], sep);
      SplitAt(pieces[0], sep, Join(pieces[1..], sep));
    }
  }

  /** Every element but the separator survives in some piece. */
  lemma {:induction false} ElementSurvives<T>(s: seq<T>, sep: T, x: T) returns (i: nat)
    requires x in s && x != sep
    ensures i < |Split(s, sep)| && x in Split(s, sep)[i]
  {
    if s[0] == sep {
      i := ElementSurvives(s[1..], sep, x);
      i := i + 1;
    } else if s[0] == x {
      i := 0;
    } else {
      i := ElementSurvives(s[1..], sep, x);
    }
  }

  lemma EndsWithSeparator<T>(s: seq<T>, sep: T)
    requires s != [] && s[|s| - 1] == sep
    ensures [] in Split(s, sep)
  {
    var front := s[..|s| - 1];
    SplitAt(front, sep, []);
    hide Split;
    assert s == front + [sep] + [];
    SplitEmpty(sep);
    assert Split(s, sep)[|Split(front, sep)|] == [];
  }

  lemma SplitEmpty<T>(sep: T)
    ensures Split([], sep) == [[]]
  {
  }
}
