/** Values that may be absent, as the source's `Option`. */
module Options {
  datatype Option<+T> = None | Some(value: T)
}

/** Substring search over any alphabet: bytes in the scanner, characters in the dialog parser. */
module Search {
  import opened Options

  /** `needle` stands in `hay` at index `at`. */
  predicate OccursAt<T(==)>(hay: seq<T>, needle: seq<T>, at: int) {
    0 <= at && at + |needle| <= |hay| && forall k | 0 <= k < |needle| :: needle[k] == hay[at + k]
  }

  lemma FirstIsIn<T>(s: seq<T>)
    ensures s == [] || s[0] in s
  {}

  lemma SliceAppend<T>(hay: seq<T>, more: seq<T>, i: nat, j: nat)
    requires i <= j <= |hay|
    ensures (hay + more)[i..j] == hay[i..j]
    ensures (hay + more)[i..] == hay[i..] + more
  {}

  lemma SliceDrop<T>(hay: seq<T>, cut: nat, i: nat, j: nat)
    requires cut <= |hay| && i <= j <= |hay| - cut
    ensures hay[cut..][i..j] == hay[cut + i..cut + j]
    ensures hay[cut..][i..] == hay[cut + i..]
  {}

  /** The first occurrence of a non-empty `needle` at or after `from`. */
  function Find<T(==)>(hay: seq<T>, needle: seq<T>, from: nat): (r: Option<nat>)
    ensures r.Some? ==> from <= r.value && r.value + |needle| <= |hay|
    decreases |hay| - from
  {
    if needle == [] || from + |needle| > |hay| then None
    else if OccursAt(hay, needle, from) then Some(from)
    else Find(hay, needle, from + 1)
  }

  /** `Find` returns an occurrence, passes over none, and gives up only when there is none. */
  lemma {:induction false} FindIsFirst<T>(hay: seq<T>, needle: seq<T>, from: nat)
    requires needle != []
    ensures var r := Find(hay, needle, from);
            && (r.Some? ==> OccursAt(hay, needle, r.value))
            && (forall j | from <= j && (r.Some? ==> j < r.value) :: !OccursAt(hay, needle, j))
    decreases |hay| - from
  {
    if from + |needle| <= |hay| && !OccursAt(hay, needle, from) {
      FindIsFirst(hay, needle, from + 1);
    }
  }

  /** That pins the result: whatever is the first occurrence is what `Find` returns. */
  lemma FindIs<T>(hay: seq<T>, needle: seq<T>, from: nat, r: Option<nat>)
    requires needle != []
    requires r.Some? ==> from <= r.value && OccursAt(hay, needle, r.value)
    requires forall j | from <= j && (r.Some? ==> j < r.value) :: !OccursAt(hay, needle, j)
    ensures Find(hay, needle, from) == r
  {
    FindIsFirst(hay, needle, from);
    var f := Find(hay, needle, from);
    assert f.Some? && r.Some? ==> f.value <= r.value <= f.value;
  }

  /** An occurrence reads the same in any text that agrees on its window. */
  lemma OccursShift<T>(front: seq<T>, hay: seq<T>, back: seq<T>, needle: seq<T>, at: int)
    requires 0 <= at && at + |needle| <= |hay|
    ensures OccursAt(hay, needle, at) <==> OccursAt(front + hay + back, needle, |front| + at)
  {
    assert forall k | 0 <= k < |hay| :: hay[k] == (front + hay + back)[|front| + k];
  }

  /** Occurrences in a suffix, and in what a text was appended to. */
  lemma OccursDrop<T>(hay: seq<T>, cut: nat, needle: seq<T>, at: int)
    requires cut <= |hay| && 0 <= at
    ensures OccursAt(hay[cut..], needle, at) <==> OccursAt(hay, needle, cut + at)
  {
    if at + |needle| <= |hay| - cut {
      OccursShift(hay[..cut], hay[cut..], [], needle, at);
      assert hay[..cut] + hay[cut..] + [] == hay;
    }
  }

  lemma OccursSlice<T>(hay: seq<T>, from: nat, to: nat, needle: seq<T>, at: int)
    requires from <= to <= |hay|
    ensures OccursAt(hay[from..to], needle, at) ==> OccursAt(hay, needle, from + at)
  {
    assert forall k | 0 <= k < to - from :: hay[from..to][k] == hay[from + k];
  }

  lemma OccursAppend<T>(hay: seq<T>, more: seq<T>, needle: seq<T>, at: int)
    requires 0 <= at && at + |needle| <= |hay|
    ensures OccursAt(hay, needle, at) <==> OccursAt(hay + more, needle, at)
  {
    OccursShift([], hay, more, needle, at);
    assert [] + hay + more == hay + more;
  }

  /** Where two occurrences nest, the inner text occurs in the outer one. */
  lemma Nested<T>(hay: seq<T>, outer: seq<T>, inner: seq<T>, i: int, j: int)
    requires OccursAt(hay, outer, i) && OccursAt(hay, inner, j)
    requires i <= j && j + |inner| <= i + |outer|
    ensures OccursAt(outer, inner, j - i)
  {
    forall k | 0 <= k < |inner| ensures inner[k] == outer[j - i + k] {
      assert outer[j - i + k] == hay[i + (j - i + k)];
    }
  }

  /** An occurrence fixes every element under it. */
  lemma OccursIndex<T>(hay: seq<T>, needle: seq<T>, at: int, k: int)
    requires OccursAt(hay, needle, at) && at <= k < at + |needle|
    ensures hay[k] == needle[k - at]
  {
    assert needle[k - at] == hay[at + (k - at)];
  }

  /** Appending text never moves an occurrence that was already found. */
  lemma FindAppend<T>(hay: seq<T>, more: seq<T>, needle: seq<T>, from: nat)
    requires Find(hay, needle, from).Some?
    ensures Find(hay + more, needle, from) == Find(hay, needle, from)
  {
    if needle == [] { return; }
    FindIsFirst(hay, needle, from);
    var r := Find(hay, needle, from);
    forall j | 0 <= j <= r.value ensures OccursAt(hay + more, needle, j) <==> OccursAt(hay, needle, j) {
      OccursAppend(hay, more, needle, j);
    }
    FindIs(hay + more, needle, from, r);
  }

  /** Searching a suffix is searching the whole text from the cut on. */
  lemma FindDrop<T>(hay: seq<T>, needle: seq<T>, cut: nat, from: nat)
    requires cut <= |hay| && needle != []
    ensures Find(hay[cut..], needle, from) ==
            (match Find(hay, needle, cut + from) case None => None case Some(p) => Some(p - cut))
  {
    forall j | 0 <= j ensures OccursAt(hay[cut..], needle, j) <==> OccursAt(hay, needle, cut + j) {
      OccursDrop(hay, cut, needle, j);
    }
    FindIsFirst(hay, needle, cut + from);
    var f := Find(hay, needle, cut + from);
    var r := match f case None => None case Some(p) => Some(p - cut);
    forall j | from <= j && (r.Some? ==> j < r.value) ensures !OccursAt(hay[cut..], needle, j) {
      assert !OccursAt(hay, needle, cut + j);
    }
    FindIs(hay[cut..], needle, from, r);
  }
}
