/**
 * The blog page's tag filter: a fixed vocabulary of tags and the list of
 * selected tags, which each click on a tag toggles.
 */
module Blog {

  /** The tags offered as filter buttons, in display order. */
  const Tags: seq<string> := ["Security", "Tutorial", "Web Dev", "Beginner", "Advanced"]

  /** The five filter tags are distinct. */
  lemma TagVocabulary()
    ensures |Tags| == 5 && NoDuplicates(Tags)
    ensures "Security" in Tags && "Web Dev" in Tags && "Advanced" in Tags
  {
  }

  predicate NoDuplicates(s: seq<string>) {
    forall i, j :: 0 <= i < j < |s| ==> s[i] != s[j]
  }

  predicate FromVocabulary(s: seq<string>) {
    forall i :: 0 <= i < |s| ==> s[i] in Tags
  }

  /** `s` with every occurrence of `t` filtered out, the rest in their original order. */
  function Without(s: seq<string>, t: string): (r: seq<string>)
    ensures |r| <= |s|
  {
    if s == [] then [] else (if s[0] == t then [] else [s[0]]) + Without(s[1..], t)
  }

  /** Filtering removes `t` and leaves the membership of every other tag as it was. */
  lemma {:induction false} WithoutMembers(s: seq<string>, t: string)
    ensures t !in Without(s, t)
    ensures forall x :: x != t ==> (x in Without(s, t) <==> x in s)
  {
    if s != [] {
      WithoutMembers(s[1..], t);
      assert s == [s[0]] + s[1..];
    }
  }

  /** Filtering removes exactly the occurrences of `t`: the multiset of the rest is unchanged. */
  lemma {:induction false} WithoutCounts(s: seq<string>, t: string)
    ensures multiset(Without(s, t)) == multiset(s)[t := 0]
    ensures |Without(s, t)| == |s| - multiset(s)[t]
  {
    if s != [] {
      WithoutCounts(s[1..], t);
      assert s == [s[0]] + s[1..];
    }
  }

  /** Filtering out a tag that is not there changes nothing. */
  lemma {:induction false} WithoutAbsent(s: seq<string>, t: string)
    requires t !in s
    ensures Without(s, t) == s
  {
    if s != [] {
      assert t !in s[1..] by {
        forall i | 0 <= i < |s[1..]| ensures s[1..][i] != t {
          assert s[1..][i] == s[i + 1];
        }
      }
      WithoutAbsent(s[1..], t);
      assert s == [s[0]] + s[1..];
    }
  }

  /** Filtering distributes over concatenation, so the kept elements keep their relative order. */
  lemma {:induction false} WithoutConcat(a: seq<string>, b: seq<string>, t: string)
    ensures Without(a + b, t) == Without(a, t) + Without(b, t)
  {
    if a == [] {
      assert a + b == b;
    } else {
      var head := if a[0] == t then [] else [a[0]];
      var ab := a + b;
      assert ab[0] == a[0] && ab[1..] == a[1..] + b;
      WithoutConcat(a[1..], b, t);
      var l, rb := Without(a[1..], t), Without(b, t);
      assert Without(ab, t) == head + (l + rb);
      assert Without(a, t) == head + l;
      assert head + (l + rb) == (head + l) + rb;
    }
  }

  /** Filtering keeps a list free of duplicates. */
  lemma {:induction false} WithoutKeepsDistinct(s: seq<string>, t: string)
    requires NoDuplicates(s)
    ensures NoDuplicates(Without(s, t))
  {
    if s != [] {
      WithoutKeepsDistinct(s[1..], t);
      WithoutMembers(s[1..], t);
      var rest := Without(s[1..], t);
      assert s[0] !in s[1..] by {
        forall i | 0 <= i < |s[1..]| ensures s[1..][i] != s[0] {
          assert s[1..][i] == s[i + 1];
        }
      }
      assert s[0] !in rest;
    }
  }

  /** A click on tag `t`: drop it if it is selected, otherwise append it. */
  function ToggleTag(selected: seq<string>, t: string): (r: seq<string>)
    ensures t in r <==> t !in selected
    ensures forall x :: x != t ==> (x in r <==> x in selected)
    ensures t !in selected ==> r == selected + [t] && |r| == |selected| + 1
    ensures t in selected ==> multiset(r) == multiset(selected)[t := 0] && |r| < |selected|
  {
    WithoutMembers(selected, t);
    WithoutCounts(selected, t);
    if t in selected then Without(selected, t) else selected + [t]
  }

  /** Selecting an unselected tag and then deselecting it gives back exactly the same list. */
  lemma ToggleAbsentTwice(selected: seq<string>, t: string)
    requires t !in selected
    ensures ToggleTag(ToggleTag(selected, t), t) == selected
  {
    WithoutConcat(selected, [t], t);
    WithoutAbsent(selected, t);
  }

  /** Deselecting a selected tag and selecting it again keeps the same tags, with `t` now last. */
  lemma TogglePresentTwice(selected: seq<string>, t: string)
    requires t in selected
    ensures ToggleTag(ToggleTag(selected, t), t) == Without(selected, t) + [t]
    ensures forall x :: x in ToggleTag(ToggleTag(selected, t), t) <==> x in selected
  {
    WithoutMembers(selected, t);
  }

  /** On a list without duplicates, deselecting and reselecting `t` only moves it to the end. */
  lemma TogglePresentTwiceDistinct(selected: seq<string>, t: string)
    requires t in selected && NoDuplicates(selected)
    ensures multiset(ToggleTag(ToggleTag(selected, t), t)) == multiset(selected)
  {
    TogglePresentTwice(selected, t);
    WithoutCounts(selected, t);
    DistinctCount(selected, t);
    assert multiset(Without(selected, t) + [t]) == multiset(Without(selected, t)) + multiset{t};
  }

  /** In a list without duplicates every element occurs once. */
  lemma {:induction false} DistinctCount(s: seq<string>, t: string)
    requires NoDuplicates(s) && t in s
    ensures multiset(s)[t] == 1
  {
    assert s == [s[0]] + s[1..];
    assert s[0] !in s[1..] by {
      forall i | 0 <= i < |s[1..]| ensures s[1..][i] != s[0] {
        assert s[1..][i] == s[i + 1];
      }
    }
    if s[0] != t {
      DistinctCount(s[1..], t);
    }
  }

  /** Toggling keeps the selection free of duplicates. */
  lemma ToggleKeepsDistinct(selected: seq<string>, t: string)
    requires NoDuplicates(selected)
    ensures NoDuplicates(ToggleTag(selected, t))
  {
    if t in selected {
      WithoutKeepsDistinct(selected, t);
    }
  }

  /** The distinct elements of a list number as many as its length. */
  lemma {:induction false} DistinctElements(s: seq<string>)
    requires NoDuplicates(s)
    ensures |set x | x in s| == |s|
  {
    if s != [] {
      DistinctElements(s[1..]);
      assert s[0] !in s[1..] by {
        forall i | 0 <= i < |s[1..]| ensures s[1..][i] != s[0] {
          assert s[1..][i] == s[i + 1];
        }
      }
      assert (set x | x in s) == (set x | x in s[1..]) + {s[0]};
    }
  }

  /** A finite set has at least as many elements as any of its subsets. */
  lemma {:induction false} SubsetSize(a: set<string>, b: set<string>)
    requires a <= b
    ensures |a| <= |b|
  {
    if a != {} {
      var x :| x in a;
      SubsetSize(a - {x}, b - {x});
    }
  }

  /**
   * Clicking the filter buttons keeps the selection a duplicate-free list of
   * vocabulary tags, so it never holds more tags than there are buttons.
   */
  lemma ToggleStaysInVocabulary(selected: seq<string>, t: string)
    requires NoDuplicates(selected) && FromVocabulary(selected) && t in Tags
    ensures NoDuplicates(ToggleTag(selected, t)) && FromVocabulary(ToggleTag(selected, t))
    ensures |ToggleTag(selected, t)| <= |Tags|
  {
    var r := ToggleTag(selected, t);
    ToggleKeepsDistinct(selected, t);
    assert FromVocabulary(r) by {
      forall i | 0 <= i < |r| ensures r[i] in Tags {
        assert r[i] in r;
      }
    }
    DistinctElements(r);
    DistinctElements(Tags);
    SubsetSize(set x | x in r, set x | x in Tags);
  }
}
