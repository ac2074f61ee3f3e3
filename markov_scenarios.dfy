/**
 * Worked corpora: the table and the possible outputs for small texts, derived from
 * the general definitions.
 */
module MarkovScenarios {
  import opened Words
  import opened Markov

  lemma SplitOneTwoThree()
    ensures Split("one two three") == ["one", "two", "three"]
  {
    var ws := ["one", "two", "three"];
    assert Join(ws) == "one two three" by {
      assert ws[..2] == ["one", "two"];
      assert ws[..2][..1] == ["one"];
    }
    SplitJoin(ws);
  }

  lemma SplitABC()
    ensures Split("a b c") == ["a", "b", "c"]
  {
    var ws := ["a", "b", "c"];
    assert Join(ws) == "a b c" by {
      assert ws[..2] == ["a", "b"];
      assert ws[..2][..1] == ["a"];
    }
    SplitJoin(ws);
  }

  lemma SplitXY()
    ensures Split("x y") == ["x", "y"]
  {
    var ws := ["x", "y"];
    assert Join(ws) == "x y" by {
      assert ws[..1] == ["x"];
    }
    SplitJoin(ws);
  }

  lemma SplitABCABD()
    ensures Split("a b c a b d") == ["a", "b", "c", "a", "b", "d"]
  {
    var ws := ["a", "b", "c", "a", "b", "d"];
    assert Join(ws[..2]) == "a b" by {
      assert ws[..2][..1] == ["a"];
    }
    assert Join(ws[..3]) == "a b c" by { assert ws[..3][..2] == ws[..2]; }
    assert Join(ws[..4]) == "a b c a" by { assert ws[..4][..3] == ws[..3]; }
    assert Join(ws[..5]) == "a b c a b" by { assert ws[..5][..4] == ws[..4]; }
    assert Join(ws) == "a b c a b d";
    SplitJoin(ws);
  }

  lemma TableABCABD()
    ensures TableOf(["a", "b", "c", "a", "b", "d"])
         == map[("a", "b") := ["c", "d"], ("b", "c") := ["a"], ("c", "a") := ["b"]]
  {
    var ws := ["a", "b", "c", "a", "b", "d"];
    assert TableOf(ws[..3]) == map[("a", "b") := ["c"]] by {
      assert ws[..3][..2] == ["a", "b"];
    }
    assert TableOf(ws[..4]) == map[("a", "b") := ["c"], ("b", "c") := ["a"]] by {
      assert ws[..4][..3] == ws[..3];
    }
    assert TableOf(ws[..5]) == map[("a", "b") := ["c"], ("b", "c") := ["a"], ("c", "a") := ["b"]] by {
      assert ws[..5][..4] == ws[..4];
    }
    assert ["c"] + ["d"] == ["c", "d"];
    assert TableOf(ws) == Record(TableOf(ws[..5]), ("a", "b"), "d");
  }

  /** "a b c a b d": the pair (a, b) is followed by c and later by d, both kept in order. */
  lemma RepeatedPairTable()
    ensures TableOf(Split("a b c a b d"))
         == map[("a", "b") := ["c", "d"], ("b", "c") := ["a"], ("c", "a") := ["b"]]
  {
    SplitABCABD();
    TableABCABD();
  }

  lemma WholeCorpusPath()
    ensures IsGeneration(TableOf(["a", "b", "c", "a", "b", "d"]), 6, ["a", "b", "c", "a", "b", "d"])
  {
    TableABCABD();
    var t := map[("a", "b") := ["c", "d"], ("b", "c") := ["a"], ("c", "a") := ["b"]];
    var out := ["a", "b", "c", "a", "b", "d"];
    assert Continues(t, out) by {
      assert out[2] in t[(out[0], out[1])];
      assert out[3] in t[(out[1], out[2])];
      assert out[4] in t[(out[2], out[3])];
      assert out[5] in t[(out[3], out[4])];
    }
  }

  /** "a b c a b d" with length 6 can come out whole: seed (a, b), then c, a, b and d. */
  lemma WholeCorpusGenerable()
    ensures IsGeneration(TableOf(Split("a b c a b d")), 6, ["a", "b", "c", "a", "b", "d"])
  {
    SplitABCABD();
    WholeCorpusPath();
  }

  /** "one two three" with length 2: the only seed is (one, two) and no word is added. */
  lemma ShortestRequest(out: seq<string>)
    requires IsGeneration(TableOf(Split("one two three")), 2, out)
    ensures out == ["one", "two"]
  {
    SplitOneTwoThree();
    var ws := ["one", "two", "three"];
    assert TableOf(ws) == map[("one", "two") := ["three"]] by {
      assert ws[..2] == ["one", "two"];
    }
  }

  /** "a b c" with length 10: the walk reaches the dead end (b, c) after one word. */
  lemma DeadEnd(out: seq<string>)
    requires IsGeneration(TableOf(Split("a b c")), 10, out)
    ensures out == ["a", "b", "c"]
  {
    SplitABC();
    var ws := ["a", "b", "c"];
    var t := TableOf(ws);
    assert t == map[("a", "b") := ["c"]] by {
      assert ws[..2] == ["a", "b"];
    }
    assert out[0] == "a" && out[1] == "b";
    assert |out| >= 3;
    assert out[2] in t[("a", "b")];
    assert |out| == 3;
  }

  /** "x y": two words give an empty table, the case `gen_text` cannot sample from. */
  lemma TwoWordsNoTable()
    ensures TableOf(Split("x y")) == map[]
  {
    SplitXY();
  }
}
