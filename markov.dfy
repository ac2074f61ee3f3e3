/**
 * The second-order Markov text generator: `parse` builds a table from each pair of
 * consecutive corpus words to the words that followed that pair, and
 * `text_from_table` walks the table from a random starting pair, appending a random
 * recorded continuation of the trailing pair until the requested length is reached
 * or the trailing pair has no entry.
 */
module Markov {
  import opened Words
  import opened Numeric

  /** Two consecutive corpus words, compared by exact string equality. */
  type Bigram = (string, string)

  /** The transition table: each bigram to the words observed right after it. */
  type Table = map<Bigram, seq<string>>

  // ---------------------------------------------------------------------------
  // Specification of the table

  /** The three-word window at position `i` of the corpus is `key` followed by `w`. */
  predicate Occurs(words: seq<string>, i: int, key: Bigram, w: string) {
    0 <= i && i + 2 < |words| && words[i] == key.0 && words[i + 1] == key.1 && words[i + 2] == w
  }

  /** The corpus holds the three consecutive words `a`, `b`, `c` somewhere. */
  ghost predicate TrigramInCorpus(words: seq<string>, a: string, b: string, c: string) {
    exists i :: Occurs(words, i, (a, b), c)
  }

  /** `t` after recording that `w` followed `key`: appended to the key's list, or a new one-word list. */
  function Record(t: Table, key: Bigram, w: string): Table {
    if key in t then t[key := t[key] + [w]] else t[key := [w]]
  }

  /** The table built from a corpus: one record per three-word window, left to right. */
  function TableOf(words: seq<string>): Table
    decreases |words|
  {
    if |words| < 3 then map[]
    else
      var n := |words|;
      Record(TableOf(words[..n - 1]), (words[n - 3], words[n - 2]), words[n - 1])
  }

  /**
   * Reference definition of one continuation list: the words that follow `key`
   * anywhere in the corpus, in corpus order, duplicates kept.
   */
  function Followers(words: seq<string>, key: Bigram): seq<string>
    decreases |words|
  {
    if |words| < 3 then []
    else (if (words[0], words[1]) == key then [words[2]] else []) + Followers(words[1..], key)
  }

  ghost function SumLengths(t: Table, keys: set<Bigram>): nat
    requires keys <= t.Keys
    decreases keys
  {
    if keys == {} then 0
    else
      var k :| k in keys;
      |t[k]| + SumLengths(t, keys - {k})
  }

  /** Number of continuations recorded in `t`, over all its keys. */
  ghost function Entries(t: Table): nat {
    SumLengths(t, t.Keys)
  }

  // ---------------------------------------------------------------------------
  // parse

  /**
   * `parse`: split the text on single spaces and record every three-word window.
   * The second `unwrap` fails unless there are at least two pieces.
   */
  method Parse(text: string) returns (table: Table)
    requires |Split(text)| >= 2
    ensures table == TableOf(Split(text))
  {
    var words := Split(text);
    var w1 := words[0];
    var w2 := words[1];
    table := map[];
    for i := 2 to |words|
      invariant w1 == words[i - 2] && w2 == words[i - 1]
      invariant table == TableOf(words[..i])
    {
      var w3 := words[i];
      if (w1, w2) in table {
        table := table[(w1, w2) := table[(w1, w2)] + [w3]];
      } else {
        table := table[(w1, w2) := [w3]];
      }
      assert words[..i + 1][..i] == words[..i];
      w1, w2 := w2, w3;
    }
    assert words[..|words|] == words;
  }

  // ---------------------------------------------------------------------------
  // Properties of the table

  lemma {:induction false} FollowersSnoc(words: seq<string>, w: string, key: Bigram)
    ensures Followers(words + [w], key)
         == Followers(words, key)
            + (if |words| >= 2 && (words[|words| - 2], words[|words| - 1]) == key then [w] else [])
    decreases |words|
  {
    if |words| >= 3 {
      assert (words + [w])[1..] == words[1..] + [w];
      FollowersSnoc(words[1..], w, key);
    } else if |words| == 2 {
      assert (words + [w])[1..] == [words[1], w];
    }
  }

  /** A word follows `key` exactly when some three-word window of the corpus is `key` then that word. */
  lemma {:induction false} FollowersMember(words: seq<string>, key: Bigram, w: string)
    ensures w in Followers(words, key) <==> exists i :: Occurs(words, i, key, w)
    decreases |words|
  {
    if |words| >= 3 {
      var head := if (words[0], words[1]) == key then [words[2]] else [];
      assert Followers(words, key) == head + Followers(words[1..], key);
      FollowersMember(words[1..], key, w);
      if w in Followers(words, key) {
        if w in head {
          assert (words[0], words[1]) == key;
          assert Occurs(words, 0, key, w);
        } else {
          var i :| Occurs(words[1..], i, key, w);
          assert Occurs(words, i + 1, key, w);
        }
      }
      if exists i :: Occurs(words, i, key, w) {
        var i :| Occurs(words, i, key, w);
        if i > 0 {
          assert Occurs(words[1..], i - 1, key, w);
        } else {
          assert (words[0], words[1]) == key;
          assert w in head;
        }
      }
    }
  }

  /**
   * The table is the group-by of the corpus windows: its keys are exactly the bigrams
   * with a follower, and each key's list is that key's followers in corpus order.
   */
  lemma {:induction false} TableIsFollowers(words: seq<string>, key: Bigram)
    ensures key in TableOf(words) <==> Followers(words, key) != []
    ensures key in TableOf(words) ==> TableOf(words)[key] == Followers(words, key)
    decreases |words|
  {
    if |words| >= 3 {
      var n := |words|;
      var init := words[..n - 1];
      TableIsFollowers(init, key);
      assert init + [words[n - 1]] == words;
      FollowersSnoc(init, words[n - 1], key);
    }
  }

  /** The key set is exactly the set of bigrams that start a three-word window. */
  lemma {:induction false} TableKeys(words: seq<string>, key: Bigram)
    ensures key in TableOf(words)
        <==> exists i :: 0 <= i && i + 2 < |words| && words[i] == key.0 && words[i + 1] == key.1
  {
    TableIsFollowers(words, key);
    if key in TableOf(words) {
      var w := Followers(words, key)[0];
      FollowersMember(words, key, w);
      var i :| Occurs(words, i, key, w);
      assert words[i] == key.0 && words[i + 1] == key.1;
    }
    if exists i :: 0 <= i && i + 2 < |words| && words[i] == key.0 && words[i + 1] == key.1 {
      var i :| 0 <= i && i + 2 < |words| && words[i] == key.0 && words[i + 1] == key.1;
      FollowersMember(words, key, words[i + 2]);
      assert Occurs(words, i, key, words[i + 2]);
    }
  }

  /** A key's list holds a word exactly when the corpus has that key followed by that word. */
  lemma TableContinuations(words: seq<string>, key: Bigram, w: string)
    requires key in TableOf(words)
    ensures w in TableOf(words)[key] <==> exists i :: Occurs(words, i, key, w)
  {
    TableIsFollowers(words, key);
    FollowersMember(words, key, w);
  }

  /** No list in the table is empty: an entry is only created holding a word. */
  lemma {:induction false} TableListsNonEmpty(words: seq<string>)
    ensures forall key :: key in TableOf(words) ==> TableOf(words)[key] != []
  {
    forall key | key in TableOf(words)
      ensures TableOf(words)[key] != []
    {
      TableIsFollowers(words, key);
    }
  }

  /** The table is empty exactly when the corpus has fewer than three words. */
  lemma {:induction false} TableEmptyIff(words: seq<string>)
    ensures TableOf(words) == map[] <==> |words| < 3
  {
    if |words| >= 3 {
      TableKeys(words, (words[0], words[1]));
      assert (words[0], words[1]) in TableOf(words);
    }
  }

  lemma {:induction false} SumLengthsPick(t: Table, keys: set<Bigram>, k: Bigram)
    requires keys <= t.Keys && k in keys
    ensures SumLengths(t, keys) == |t[k]| + SumLengths(t, keys - {k})
    decreases keys
  {
    var j :| j in keys && SumLengths(t, keys) == |t[j]| + SumLengths(t, keys - {j});
    if j != k {
      SumLengthsPick(t, keys - {j}, k);
      SumLengthsPick(t, keys - {k}, j);
      assert keys - {j} - {k} == keys - {k} - {j};
    }
  }

  lemma {:induction false} SumLengthsAgree(t: Table, u: Table, keys: set<Bigram>)
    requires keys <= t.Keys && keys <= u.Keys
    requires forall k :: k in keys ==> |t[k]| == |u[k]|
    ensures SumLengths(t, keys) == SumLengths(u, keys)
    decreases keys
  {
    if keys != {} {
      var k :| k in keys;
      SumLengthsPick(t, keys, k);
      SumLengthsPick(u, keys, k);
      SumLengthsAgree(t, u, keys - {k});
    }
  }

  /** Recording one continuation adds exactly one entry to the table. */
  lemma RecordEntries(t: Table, key: Bigram, w: string)
    ensures Entries(Record(t, key, w)) == Entries(t) + 1
  {
    var u := Record(t, key, w);
    SumLengthsPick(u, u.Keys, key);
    SumLengthsAgree(t, u, t.Keys - {key});
    if key in t {
      SumLengthsPick(t, t.Keys, key);
      assert u.Keys - {key} == t.Keys - {key};
    } else {
      assert u.Keys - {key} == t.Keys - {key} == t.Keys;
    }
  }

  /** Every window contributes exactly one entry: the lists hold |words| - 2 words in all. */
  lemma {:induction false} TableEntries(words: seq<string>)
    ensures Entries(TableOf(words)) == if |words| < 2 then 0 else |words| - 2
    decreases |words|
  {
    if |words| >= 3 {
      var n := |words|;
      TableEntries(words[..n - 1]);
      RecordEntries(TableOf(words[..n - 1]), (words[n - 3], words[n - 2]), words[n - 1]);
    } else {
      assert TableOf(words) == map[];
      assert TableOf(words).Keys == {};
    }
  }

  // ---------------------------------------------------------------------------
  // text_from_table

  /** Every three consecutive words of `out` form a trigram recorded in `t`. */
  predicate Continues(t: Table, out: seq<string>) {
    forall i :: 0 <= i < |out| - 2 ==> (out[i], out[i + 1]) in t && out[i + 2] in t[(out[i], out[i + 1])]
  }

  /**
   * The word sequences `text_from_table(t, length)` can produce: between 2 and
   * `length` words, starting with a key of `t`, every word after the first two a
   * recorded continuation of the two before it, and stopping short of `length`
   * only at a pair with no entry.
   */
  predicate IsGeneration(t: Table, length: int, out: seq<string>) {
    && 2 <= |out| <= length
    && (out[0], out[1]) in t
    && Continues(t, out)
    && (|out| < length ==> (out[|out| - 2], out[|out| - 1]) !in t)
  }

  /**
   * `text_from_table`: the random generator's choices are nondeterministic picks
   * (the seed among the keys, each continuation among the trailing pair's list).
   * The empty table (the empty range at src/markov.rs:31) and an empty list (the one
   * at src/markov.rs:38) make the source panic. A length below 2 underflows
   * `length-2` at src/markov.rs:35: a panic with overflow checks on, up to some
   * four billion iterations without them; `Config::new` never lets such a length through.
   */
  method TextFromTable(table: Table, length: u32) returns (output: string, generated: seq<string>)
    requires table != map[]
    requires forall key :: key in table ==> table[key] != []
    requires length >= 2
    ensures IsGeneration(table, length as int, generated)
    ensures output == Join(generated)
  {
    var seed :| seed in table;
    var w1, w2 := seed.0, seed.1;
    output := w1 + " " + w2;
    generated := [w1, w2];
    for step := 0 to length - 2
      invariant |generated| == step as int + 2
      invariant generated[0] == seed.0 && generated[1] == seed.1
      invariant generated[|generated| - 2] == w1 && generated[|generated| - 1] == w2
      invariant Continues(table, generated)
      invariant output == Join(generated)
    {
      if (w1, w2) in table {
        var values := table[(w1, w2)];
        var pick :| 0 <= pick < |values|;
        var w3 := values[pick];
        output := output + " " + w3;
        generated := generated + [w3];
        w1, w2 := w2, w3;
      } else {
        break;
      }
    }
  }

  // ---------------------------------------------------------------------------
  // gen_text

  /**
   * `gen_text`: the table of the text, sampled. A one-word text makes `parse` panic
   * at its second `unwrap`; a two-word text gives an empty table, on which
   * `text_from_table` panics choosing a seed.
   */
  method GenText(text: string, length: u32) returns (output: string, generated: seq<string>)
    requires |Split(text)| >= 3
    requires length >= 2
    ensures IsGeneration(TableOf(Split(text)), length as int, generated)
    ensures output == Join(generated)
    ensures Split(output) == generated
  {
    var table := Parse(text);
    TableEmptyIff(Split(text));
    TableListsNonEmpty(Split(text));
    output, generated := TextFromTable(table, length);
    GeneratedFromCorpus(Split(text), length as int, generated);
    SplitJoin(generated);
  }

  // ---------------------------------------------------------------------------
  // Properties of generated text

  /**
   * Every generated output comes from the corpus: the seed pair is two consecutive
   * corpus words, each later word completes a trigram that occurs in the corpus, and
   * so every output word is a corpus word.
   */
  lemma GeneratedFromCorpus(words: seq<string>, length: int, out: seq<string>)
    requires IsGeneration(TableOf(words), length, out)
    ensures exists i :: 0 <= i && i + 2 < |words| && words[i] == out[0] && words[i + 1] == out[1]
    ensures forall i :: 0 <= i < |out| - 2 ==> TrigramInCorpus(words, out[i], out[i + 1], out[i + 2])
    ensures forall i :: 0 <= i < |out| ==> out[i] in words
  {
    TableKeys(words, (out[0], out[1]));
    var s :| 0 <= s && s + 2 < |words| && words[s] == out[0] && words[s + 1] == out[1];
    forall i | 0 <= i < |out| - 2
      ensures TrigramInCorpus(words, out[i], out[i + 1], out[i + 2])
    {
      TableContinuations(words, (out[i], out[i + 1]), out[i + 2]);
    }
    forall i | 0 <= i < |out|
      ensures out[i] in words
    {
      if i < 2 {
        assert out[i] == words[s + i];
      } else {
        assert TrigramInCorpus(words, out[i - 2], out[i - 1], out[i]);
        var j :| Occurs(words, j, (out[i - 2], out[i - 1]), out[i]);
        assert words[j + 2] == out[i];
      }
    }
  }
}
