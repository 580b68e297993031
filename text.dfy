/**
 * The two string operations the detector relies on, with JavaScript's meaning:
 * `location.split(', ')[1]` and `details.includes(ts)`.
 */
module Text {
  import opened Wrappers

  /** A ", " separator starts at index i of s. */
  predicate SepAt(s: string, i: int) {
    0 <= i && i + 2 <= |s| && s[i] == ',' && s[i + 1] == ' '
  }

  /** s contains no ", " separator at all. */
  predicate NoSep(s: string) {
    forall i :: 0 <= i < |s| ==> !SepAt(s, i)
  }

  /** The first separator at or after `from`, scanning left to right as `split` does. */
  function FindSep(s: string, from: nat): (r: Option<nat>)
    decreases |s| - from
    ensures r.Some? ==> from <= r.value && SepAt(s, r.value)
    ensures r.Some? ==> forall j :: from <= j < r.value ==> !SepAt(s, j)
    ensures r.None? ==> forall j :: from <= j ==> !SepAt(s, j)
  {
    if from + 2 > |s| then None
    else if SepAt(s, from) then Some(from)
    else FindSep(s, from + 1)
  }

  /**
   * `s.split(", ")[1]`: the text between the first separator and the next one
   * (or the end of s). None stands for `undefined`, when s has no separator.
   */
  function SecondField(s: string): (r: Option<string>)
    ensures r.Some? ==> NoSep(r.value) && |r.value| + 2 <= |s|
  {
    match FindSep(s, 0)
    case None => None
    case Some(i) =>
      match FindSep(s, i + 2)
      case None => NoSepSlice(s, i + 2, |s|); assert s[i + 2..] == s[i + 2..|s|]; Some(s[i + 2..])
      case Some(k) => NoSepSlice(s, i + 2, k); Some(s[i + 2..k])
  }

  /** A stretch of s that holds no separator is, as a text of its own, separator-free. */
  lemma NoSepSlice(s: string, a: nat, b: nat)
    requires a <= b <= |s|
    requires forall j :: a <= j && j + 2 <= b ==> !SepAt(s, j)
    ensures NoSep(s[a..b])
  {
    forall i | 0 <= i < b - a ensures !SepAt(s[a..b], i) {
      if i + 2 <= b - a {
        assert s[a..b][i] == s[a + i] && s[a..b][i + 1] == s[a + i + 1];
        assert !SepAt(s, a + i);
      }
    }
  }

  /** The second field is missing exactly when the text has no separator. */
  lemma SecondFieldMissing(s: string)
    ensures SecondField(s).None? <==> NoSep(s)
  {
    if NoSep(s) {
      assert FindSep(s, 0).None?;
    } else {
      var i :| SepAt(s, i);
      assert FindSep(s, 0).Some?;
    }
  }

  /** FindSep is pinned down by the separators around its result. */
  lemma FindSepIs(s: string, from: nat, k: nat)
    requires from <= k && SepAt(s, k)
    requires forall j :: from <= j < k ==> !SepAt(s, j)
    ensures FindSep(s, from) == Some(k)
  {
  }

  /**
   * For "City, Country" the second field is Country, and it stays Country
   * when further fields follow ("City, Country, More"): the field after the
   * FIRST separator, not the text after the last one.
   */
  lemma {:induction false} SecondFieldOfPair(city: string, country: string, rest: Option<string>)
    requires NoSep(city) && NoSep(country)
    ensures var s := city + ", " + country + (if rest.Some? then ", " + rest.value else "");
            SecondField(s) == Some(country)
  {
    var tail := if rest.Some? then ", " + rest.value else "";
    var s := city + ", " + country + tail;
    var c := |city|;
    forall j | 0 <= j < c ensures !SepAt(s, j) {
      if j + 1 < c {
        assert !SepAt(city, j);
        assert s[j] == city[j] && s[j + 1] == city[j + 1];
      } else {
        assert s[j + 1] == ',';
      }
    }
    assert SepAt(s, c);
    FindSepIs(s, 0, c);
    var d := c + 2 + |country|;
    forall j | c + 2 <= j < d ensures !SepAt(s, j) {
      if j + 1 < d {
        assert !SepAt(country, j - c - 2);
        assert s[j] == country[j - c - 2] && s[j + 1] == country[j - c - 1];
      } else if rest.Some? {
        assert s[j + 1] == ',';
      }
    }
    if rest.Some? {
      assert SepAt(s, d);
      FindSepIs(s, c + 2, d);
      assert s[c + 2..d] == country;
    } else {
      assert forall j :: d <= j ==> !SepAt(s, j);
      assert FindSep(s, c + 2).None?;
      assert s[c + 2..] == country;
    }
  }

  /** `hay.includes(needle)`: needle occurs in hay as a contiguous block. */
  predicate Contains(hay: string, needle: string)
    decreases |hay|
  {
    needle <= hay || (hay != [] && Contains(hay[1..], needle))
  }

  /** needle occurs in hay starting at position i. */
  predicate OccursAt(hay: string, needle: string, i: int) {
    0 <= i && i + |needle| <= |hay| && hay[i..i + |needle|] == needle
  }

  /** `includes` holds exactly when needle occurs at some position of hay. */
  lemma ContainsOccurs(hay: string, needle: string)
    ensures Contains(hay, needle) <==> exists i :: OccursAt(hay, needle, i)
  {
    if Contains(hay, needle) {
      OccursOfContains(hay, needle);
    }
    if exists i :: OccursAt(hay, needle, i) {
      var i :| OccursAt(hay, needle, i);
      ContainsOfOccurs(hay, needle, i);
    }
  }

  lemma {:induction false} OccursOfContains(hay: string, needle: string)
    requires Contains(hay, needle)
    ensures exists i :: OccursAt(hay, needle, i)
    decreases |hay|
  {
    if needle <= hay {
      assert OccursAt(hay, needle, 0);
    } else {
      OccursOfContains(hay[1..], needle);
      var i :| OccursAt(hay[1..], needle, i);
      assert hay[1..][i..i + |needle|] == hay[i + 1..i + 1 + |needle|];
      assert OccursAt(hay, needle, i + 1);
    }
  }

  lemma {:induction false} ContainsOfOccurs(hay: string, needle: string, i: int)
    requires OccursAt(hay, needle, i)
    ensures Contains(hay, needle)
    decreases i
  {
    if i > 0 {
      assert hay[1..][i - 1..i - 1 + |needle|] == hay[i..i + |needle|];
      ContainsOfOccurs(hay[1..], needle, i - 1);
    } else {
      assert needle <= hay;
    }
  }

  /** A text built around the needle contains it. */
  lemma {:induction false} ContainsMiddle(a: string, needle: string, b: string)
    ensures Contains(a + needle + b, needle)
  {
    if a == [] {
      assert a + needle + b == needle + b;
    } else {
      assert (a + needle + b)[1..] == a[1..] + needle + b;
      ContainsMiddle(a[1..], needle, b);
    }
  }
}
