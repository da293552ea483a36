/**
  Classification of a material by its name: the name is lower-cased and
  tested against six keywords in a fixed order; the first keyword that
  occurs as a substring decides the category.
 */
module Classifier {
  import opened Wrappers
  import opened Themes

  /** Lower-cases one character (ASCII letters only). */
  function LowerChar(ch: char): (r: char)
    ensures 'A' <= ch <= 'Z' ==> r as int == ch as int + 32
    ensures !('A' <= ch <= 'Z') ==> r == ch
  {
    if 'A' <= ch <= 'Z' then (ch as int - 'A' as int + 'a' as int) as char else ch
  }

  /** `s.lower()`. */
  function Lower(s: string): (r: string)
    ensures |r| == |s|
    ensures forall i :: 0 <= i < |s| ==> r[i] == LowerChar(s[i])
  {
    if s == [] then [] else [LowerChar(s[0])] + Lower(s[1..])
  }

  /** `sub` starts at position `i` of `s`. */
  predicate OccursAt(s: string, sub: string, i: int)
  {
    0 <= i && i + |sub| <= |s| && s[i..i + |sub|] == sub
  }

  /** `sub in s`: `sub` occurs in `s` as a contiguous substring. */
  function Contains(s: string, sub: string): (r: bool)
    ensures r <==> exists i :: OccursAt(s, sub, i)
    decreases |s|
  {
    if |sub| > |s| then false
    else if s[..|sub|] == sub then
      assert OccursAt(s, sub, 0);
      true
    else
      var r := Contains(s[1..], sub);
      assert forall i :: OccursAt(s[1..], sub, i) <==> OccursAt(s, sub, i + 1);
      assert !OccursAt(s, sub, 0);
      assert (exists i :: OccursAt(s, sub, i)) ==> exists i :: OccursAt(s[1..], sub, i) by {
        if exists i :: OccursAt(s, sub, i) {
          var i :| OccursAt(s, sub, i);
          assert OccursAt(s[1..], sub, i - 1);
        }
      }
      r
  }

  /** The keyword that selects a category. Only `stem` is matched without
      a trailing underscore. */
  function Keyword(c: Category): (k: string)
    ensures c == Stem ==> k == CategoryKey(c)
    ensures c != Stem ==> k == CategoryKey(c) + "_"
  {
    match c
    case Leaf => "leaf_"
    case Trunk => "trunk_"
    case Petal => "petal_"
    case Stem => "stem"
    case Grass => "grass_"
    case Rock => "rock_"
  }

  /** Position of a category's test in the if/elif chain. */
  function Rank(c: Category): nat
  {
    match c
    case Leaf => 0
    case Trunk => 1
    case Petal => 2
    case Stem => 3
    case Grass => 4
    case Rock => 5
  }

  /** The keyword of `c` occurs in the lower-cased `name`. */
  predicate Mentions(name: string, c: Category)
  {
    Contains(Lower(name), Keyword(c))
  }

  /** No earlier keyword of the chain than `c`'s occurs in `name`. */
  predicate NoEarlierMention(name: string, c: Category)
  {
    forall d: Category :: Rank(d) < Rank(c) ==> !Mentions(name, d)
  }

  /** The keyword each test of the if/elif chain looks for. */
  lemma ChainKeywords(name: string)
    ensures Mentions(name, Leaf) == Contains(Lower(name), "leaf_")
    ensures Mentions(name, Trunk) == Contains(Lower(name), "trunk_")
    ensures Mentions(name, Petal) == Contains(Lower(name), "petal_")
    ensures Mentions(name, Stem) == Contains(Lower(name), "stem")
    ensures Mentions(name, Grass) == Contains(Lower(name), "grass_")
    ensures Mentions(name, Rock) == Contains(Lower(name), "rock_")
  {
  }

  /** The tests that come before each test of the if/elif chain. */
  lemma ChainOrder(name: string)
    ensures NoEarlierMention(name, Leaf)
    ensures NoEarlierMention(name, Trunk) == !Mentions(name, Leaf)
    ensures NoEarlierMention(name, Petal) == (NoEarlierMention(name, Trunk) && !Mentions(name, Trunk))
    ensures NoEarlierMention(name, Stem) == (NoEarlierMention(name, Petal) && !Mentions(name, Petal))
    ensures NoEarlierMention(name, Grass) == (NoEarlierMention(name, Stem) && !Mentions(name, Stem))
    ensures NoEarlierMention(name, Rock) == (NoEarlierMention(name, Grass) && !Mentions(name, Grass))
  {
    assert forall d: Category :: Rank(d) < Rank(Trunk) ==> d == Leaf;
    assert forall d: Category :: Rank(d) < Rank(Petal) ==> Rank(d) < Rank(Trunk) || d == Trunk;
    assert forall d: Category :: Rank(d) < Rank(Stem) ==> Rank(d) < Rank(Petal) || d == Petal;
    assert forall d: Category :: Rank(d) < Rank(Grass) ==> Rank(d) < Rank(Stem) || d == Stem;
    assert forall d: Category :: Rank(d) < Rank(Rock) ==> Rank(d) < Rank(Grass) || d == Grass;
  }

  /** The if/elif chain: the category of a material name, or `None` when no
      keyword occurs in it. A chosen category's keyword occurs in the
      lower-cased name and no earlier keyword does. */
  function Classify(name: string): (r: Option<Category>)
    ensures r.Some? ==> Mentions(name, r.value) && NoEarlierMention(name, r.value)
    ensures r.None? ==> forall c: Category :: !Mentions(name, c)
  {
    ChainKeywords(name);
    ChainOrder(name);
    var s := Lower(name);
    if Contains(s, "leaf_") then Some(Leaf)
    else if Contains(s, "trunk_") then Some(Trunk)
    else if Contains(s, "petal_") then Some(Petal)
    else if Contains(s, "stem") then Some(Stem)
    else if Contains(s, "grass_") then Some(Grass)
    else if Contains(s, "rock_") then Some(Rock)
    else None
  }

  /** First match wins: a category is chosen exactly when its keyword occurs
      in the lower-cased name and no earlier keyword does. */
  lemma ClassifyFirstMatch(name: string, c: Category)
    ensures Classify(name) == Some(c) <==> Mentions(name, c) && NoEarlierMention(name, c)
  {
    var r := Classify(name);
    if Mentions(name, c) && NoEarlierMention(name, c) {
      assert r.Some?;
      var d := r.value;
      assert !(Rank(d) < Rank(c));
      assert !(Rank(c) < Rank(d));
      assert d == c by {
        match d
        case Leaf =>
        case Trunk =>
        case Petal =>
        case Stem =>
        case Grass =>
        case Rock =>
      }
    }
  }

  /** A name gets no category exactly when none of the six keywords occurs. */
  lemma ClassifyNone(name: string)
    ensures Classify(name).None? <==> forall c: Category :: !Mentions(name, c)
  {
    var r := Classify(name);
    if r.Some? {
      assert Mentions(name, r.value);
    }
  }

  /** Two names that differ only in the case of their letters. */
  predicate SameUpToCase(a: string, b: string)
  {
    |a| == |b| && forall i :: 0 <= i < |a| ==> LowerChar(a[i]) == LowerChar(b[i])
  }

  /** Classification ignores letter case. */
  lemma ClassifyIgnoresCase(a: string, b: string)
    requires SameUpToCase(a, b)
    ensures Classify(a) == Classify(b)
  {
    assert Lower(a) == Lower(b);
  }

  /** A name that mentions `leaf_` is a leaf, whatever else it mentions. */
  lemma LeafWins(name: string)
    requires Mentions(name, Leaf)
    ensures Classify(name) == Some(Leaf)
  {
    ClassifyFirstMatch(name, Leaf);
  }

  /** A string shorter than the keyword cannot contain it. */
  lemma TooShort(s: string, sub: string)
    requires |s| < |sub|
    ensures !Contains(s, sub)
  {
  }

  /** `stem` matches without an underscore: "Stem" alone is a stem. */
  lemma BareStem()
    ensures Classify("Stem") == Some(Stem)
  {
    assert Lower("Stem") == "stem";
    assert OccursAt("stem", "stem", 0);
    TooShort("stem", "leaf_");
    TooShort("stem", "trunk_");
    TooShort("stem", "petal_");
  }

  /** The other keywords need their underscore: "Rock" alone gets no colour. */
  lemma BareRock()
    ensures Classify("Rock") == None
  {
    var s := Lower("Rock");
    assert s == "rock";
    TooShort(s, "leaf_");
    TooShort(s, "trunk_");
    TooShort(s, "petal_");
    TooShort(s, "grass_");
    TooShort(s, "rock_");
    assert !Contains(s, "stem") by {
      assert forall i :: !OccursAt(s, "stem", i) by {
        assert s != "stem";
      }
    }
  }
}
