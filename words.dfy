/**
 * The word layer of the generator: Rust's `str::split(" ")`, which cuts a text at
 * every single space character, and the `format!("{} {}", ..)` joining that builds
 * the generated text one word at a time.
 */
module Words {

  /** Number of space characters in `s`. */
  function Spaces(s: string): nat
    decreases |s|
  {
    if s == [] then 0 else (if s[0] == ' ' then 1 else 0) + Spaces(s[1..])
  }

  /**
   * The pieces between the single spaces of `s`, in order. There is always a first
   * piece, no piece contains a space, and pieces may be empty ("a  b" gives "a", "", "b").
   */
  function Split(s: string): (r: seq<string>)
    ensures |r| >= 1
    ensures forall i :: 0 <= i < |r| ==> ' ' !in r[i]
    decreases |s|
  {
    if s == [] then [""]
    else
      var rest := Split(s[1..]);
      if s[0] == ' ' then [""] + rest
      else [[s[0]] + rest[0]] + rest[1..]
  }

  /** The words separated by single spaces, built left to right as `format!("{} {}", output, w)` does. */
  function Join(ws: seq<string>): string
    requires |ws| >= 1
    decreases |ws|
  {
    if |ws| == 1 then ws[0] else Join(ws[..|ws| - 1]) + " " + ws[|ws| - 1]
  }

  /** A text with n spaces splits into exactly n + 1 pieces. */
  lemma {:induction false} SplitLength(s: string)
    ensures |Split(s)| == Spaces(s) + 1
    decreases |s|
  {
    if s != [] {
      SplitLength(s[1..]);
    }
  }

  lemma {:induction false} SpacesPositive(s: string)
    ensures Spaces(s) > 0 <==> ' ' in s
    decreases |s|
  {
    if s != [] {
      SpacesPositive(s[1..]);
      assert s == [s[0]] + s[1..];
    }
  }

  /** The second piece exists exactly when the text holds a space. */
  lemma {:induction false} SplitHasSecondPiece(s: string)
    ensures |Split(s)| >= 2 <==> ' ' in s
  {
    SplitLength(s);
    SpacesPositive(s);
  }

  /** A text without spaces is a single piece. */
  lemma {:induction false} SplitNoSpace(w: string)
    requires ' ' !in w
    ensures Split(w) == [w]
    decreases |w|
  {
    if w != [] {
      assert ' ' !in w[1..] by {
        forall i | 0 <= i < |w[1..]| ensures w[1..][i] != ' ' {
          assert w[1..][i] == w[i + 1];
        }
      }
      SplitNoSpace(w[1..]);
      assert w == [w[0]] + w[1..];
    }
  }

  /** Splitting distributes over a joining space. */
  lemma {:induction false} SplitAtSpace(a: string, b: string)
    ensures Split(a + " " + b) == Split(a) + Split(b)
    decreases |a|
  {
    if a == [] {
      assert a + " " + b == [' '] + b;
    } else {
      assert (a + " " + b)[1..] == a[1..] + " " + b;
      SplitAtSpace(a[1..], b);
    }
  }

  lemma {:induction false} JoinAppend(xs: seq<string>, ys: seq<string>)
    requires |xs| >= 1 && |ys| >= 1
    ensures Join(xs + ys) == Join(xs) + " " + Join(ys)
    decreases |ys|
  {
    if |ys| > 1 {
      var ys' := ys[..|ys| - 1];
      assert (xs + ys)[..|xs + ys| - 1] == xs + ys';
      JoinAppend(xs, ys');
    } else {
      assert (xs + ys)[..|xs + ys| - 1] == xs;
    }
  }

  /** Joining the pieces of a text with single spaces restores the text. */
  lemma {:induction false} JoinSplit(s: string)
    ensures Join(Split(s)) == s
    decreases |s|
  {
    if s != [] {
      var rest := Split(s[1..]);
      JoinSplit(s[1..]);
      if s[0] == ' ' {
        JoinAppend([""], rest);
      } else if |rest| > 1 {
        JoinAppend([rest[0]], rest[1..]);
        JoinAppend([[s[0]] + rest[0]], rest[1..]);
        assert [rest[0]] + rest[1..] == rest;
      }
    }
  }

  /** Splitting a space-joined word list gives the words back, provided no word holds a space. */
  lemma {:induction false} SplitJoin(ws: seq<string>)
    requires |ws| >= 1
    requires forall i :: 0 <= i < |ws| ==> ' ' !in ws[i]
    ensures Split(Join(ws)) == ws
    decreases |ws|
  {
    var last := ws[|ws| - 1];
    SplitNoSpace(last);
    if |ws| > 1 {
      var init := ws[..|ws| - 1];
      SplitJoin(init);
      SplitAtSpace(Join(init), last);
      assert init + [last] == ws;
    }
  }
}
