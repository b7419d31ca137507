/** `std::set<std::string>`: a strictly increasing sequence in the order of
    `std::string::operator<`.  Iteration order is sequence order. */
module OrderedSets {
  import opened Strings

  predicate StrictlySorted(s: seq<string>) {
    forall i, j :: 0 <= i < j < |s| ==> LexLess(s[i], s[j])
  }

  /** `x` below the head of a sorted sequence is below all of it. */
  lemma BelowHead(s: seq<string>, x: string)
    requires StrictlySorted(s) && |s| > 0 && LexLess(x, s[0])
    ensures forall j :: 0 <= j < |s| ==> LexLess(x, s[j]) && s[j] != x
  {
    forall j | 0 <= j < |s| ensures LexLess(x, s[j]) && s[j] != x {
      LexLessTransitive(x, s[0], s[j]);
      LexLessNotEqual(x, s[j]);
    }
  }

  /** `set.insert(x)`: `x` is added unless present, and the order is kept. */
  function Insert(s: seq<string>, x: string): (r: seq<string>)
    requires StrictlySorted(s)
    ensures StrictlySorted(r)
    ensures forall y :: y in r <==> y in s || y == x
    ensures x in s ==> r == s
    ensures x !in s ==> |r| == |s| + 1
    decreases |s|
  {
    if |s| == 0 then [x]
    else if s[0] == x then s
    else if LexLess(x, s[0]) then
      BelowHead(s, x);
      [x] + s
    else
      LexLessTotal(x, s[0]);
      var rest := Insert(s[1..], x);
      assert forall y :: y in rest ==> LexLess(s[0], y);
      assert x !in s ==> x !in s[1..];
      assert s == [s[0]] + s[1..];
      [s[0]] + rest
  }

  /** The elements of `xs` inserted one after another into `s`. */
  function InsertAll(s: seq<string>, xs: seq<string>): (r: seq<string>)
    requires StrictlySorted(s)
    ensures StrictlySorted(r)
    ensures forall y :: y in r <==> y in s || y in xs
    decreases |xs|
  {
    if |xs| == 0 then s else InsertAll(Insert(s, xs[0]), xs[1..])
  }

  /** A sorted sequence holds each element once. */
  lemma StrictlySortedDistinct(s: seq<string>, i: int, j: int)
    requires StrictlySorted(s) && 0 <= i < |s| && 0 <= j < |s| && i != j
    ensures s[i] != s[j]
  {
    LexLessNotEqual(s[i], s[j]);
    LexLessNotEqual(s[j], s[i]);
  }
}

/** `std::map<std::string, V>`: a sequence of entries whose keys strictly
    increase in the order of `std::string::operator<`.  Iteration order is
    sequence order. */
module OrderedMaps {
  import opened Wrappers
  import opened Strings

  type Entries<V> = seq<(string, V)>

  predicate Valid<V>(m: Entries<V>) {
    forall i, j :: 0 <= i < j < |m| ==> LexLess(m[i].0, m[j].0)
  }

  predicate HasKey<V>(m: Entries<V>, k: string) {
    exists i :: 0 <= i < |m| && m[i].0 == k
  }

  lemma HasKeySplit<V>(m: Entries<V>, k: string)
    requires |m| > 0
    ensures HasKey(m, k) <==> m[0].0 == k || HasKey(m[1..], k)
  {
    if HasKey(m, k) && m[0].0 != k {
      var i :| 0 <= i < |m| && m[i].0 == k;
      assert m[1..][i - 1].0 == k;
    }
    if HasKey(m[1..], k) {
      var i :| 0 <= i < |m| - 1 && m[1..][i].0 == k;
      assert m[i + 1].0 == k;
    }
  }

  /** In a valid map no key lies below the first one. */
  lemma BelowFirst<V>(m: Entries<V>, k: string)
    requires Valid(m) && |m| > 0 && LexLess(k, m[0].0)
    ensures forall j :: 0 <= j < |m| ==> LexLess(k, m[j].0) && m[j].0 != k
    ensures !HasKey(m, k)
  {
    forall j | 0 <= j < |m| ensures LexLess(k, m[j].0) && m[j].0 != k {
      LexLessTransitive(k, m[0].0, m[j].0);
      LexLessNotEqual(k, m[j].0);
    }
  }

  /** `m.find(k)` as a position in iteration order. */
  function IndexOf<V>(m: Entries<V>, k: string): (r: Option<nat>)
    ensures r.Some? ==> r.value < |m| && m[r.value].0 == k
    ensures r.Some? ==> forall j :: 0 <= j < r.value ==> m[j].0 != k
    ensures r.None? <==> !HasKey(m, k)
    decreases |m|
  {
    if |m| == 0 then None
    else
      HasKeySplit(m, k);
      if m[0].0 == k then Some(0)
      else
        match IndexOf(m[1..], k)
        case None => None
        case Some(i) => Some(i + 1)
  }

  /** `m.find(k)` as the stored value. */
  function Get<V>(m: Entries<V>, k: string): (r: Option<V>)
    ensures r.Some? <==> HasKey(m, k)
    ensures r.Some? ==> (k, r.value) in m
  {
    match IndexOf(m, k)
    case Some(i) => Some(m[i].1)
    case None => None
  }

  /** In a valid map a key is held at one position only. */
  lemma KeyPositionUnique<V>(m: Entries<V>, i: int, k: string)
    requires Valid(m) && 0 <= i < |m| && m[i].0 == k
    ensures IndexOf(m, k) == Some(i)
  {
    var j := IndexOf(m, k).value;
    LexLessNotEqual(m[j].0, m[i].0);
  }

  /** `m[k] = v`: the entry for `k` is replaced, or inserted in key order. */
  function Put<V>(m: Entries<V>, k: string, v: V): (r: Entries<V>)
    requires Valid(m)
    ensures Valid(r)
    ensures forall k' :: HasKey(r, k') <==> HasKey(m, k') || k' == k
    ensures HasKey(m, k) ==> |r| == |m|
    ensures !HasKey(m, k) ==> |r| == |m| + 1
    decreases |m|
  {
    if |m| == 0 then
      assert [(k, v)][0].0 == k;
      [(k, v)]
    else if m[0].0 == k then
      var r := [(k, v)] + m[1..];
      assert forall k' :: HasKey(r, k') <==> HasKey(m, k') by {
        forall k' ensures HasKey(r, k') <==> HasKey(m, k') {
          HasKeySplit(m, k'); HasKeySplit(r, k'); assert r[1..] == m[1..];
        }
      }
      r
    else if LexLess(k, m[0].0) then
      BelowFirst(m, k);
      var r := [(k, v)] + m;
      assert forall k' :: HasKey(r, k') <==> HasKey(m, k') || k' == k by {
        forall k' ensures HasKey(r, k') <==> HasKey(m, k') || k' == k {
          HasKeySplit(r, k'); assert r[1..] == m;
        }
      }
      r
    else
      LexLessTotal(k, m[0].0);
      var rest := Put(m[1..], k, v);
      var r := [m[0]] + rest;
      assert forall j :: 0 <= j < |rest| ==> LexLess(m[0].0, rest[j].0) by {
        forall j | 0 <= j < |rest| ensures LexLess(m[0].0, rest[j].0) {
          assert HasKey(rest, rest[j].0);
        }
      }
      assert forall k' :: HasKey(r, k') <==> HasKey(m, k') || k' == k by {
        forall k' ensures HasKey(r, k') <==> HasKey(m, k') || k' == k {
          HasKeySplit(m, k'); HasKeySplit(r, k'); assert r[1..] == rest;
        }
      }
      HasKeySplit(m, k);
      r
  }

  /** `m.erase(k)`: the entry for `k`, if any, is removed and the others stay
      in order. */
  function Erase<V>(m: Entries<V>, k: string): (r: Entries<V>)
    requires Valid(m)
    ensures Valid(r)
    ensures forall i :: 0 <= i < |r| ==> r[i] in m && r[i].0 != k
    ensures forall i :: 0 <= i < |m| && m[i].0 != k ==> m[i] in r
    decreases |m|
  {
    if |m| == 0 then []
    else if m[0].0 == k then
      assert forall i :: 0 < i < |m| ==> m[i].0 != k by {
        forall i | 0 < i < |m| ensures m[i].0 != k {
          LexLessNotEqual(m[0].0, m[i].0);
        }
      }
      m[1..]
    else
      var rest := Erase(m[1..], k);
      assert forall j :: 0 <= j < |rest| ==> LexLess(m[0].0, rest[j].0) by {
        forall j | 0 <= j < |rest| ensures LexLess(m[0].0, rest[j].0) {
          assert rest[j] in m[1..];
        }
      }
      assert m == [m[0]] + m[1..];
      [m[0]] + rest
  }

  /** What a lookup sees after `m[k] = v`. */
  lemma {:induction false} GetPut<V>(m: Entries<V>, k: string, v: V, k': string)
    requires Valid(m)
    ensures Get(Put(m, k, v), k') == if k' == k then Some(v) else Get(m, k')
    decreases |m|
  {
    var r := Put(m, k, v);
    if |m| == 0 {
    } else if m[0].0 == k {
      if k' != k && HasKey(m, k') {
        var i :| 0 <= i < |m| && m[i].0 == k';
        KeyPositionUnique(m, i, k');
        KeyPositionUnique(r, i, k');
      }
    } else if LexLess(k, m[0].0) {
      if k' != k && HasKey(m, k') {
        var i :| 0 <= i < |m| && m[i].0 == k';
        KeyPositionUnique(m, i, k');
        assert r[i + 1] == m[i];
        KeyPositionUnique(r, i + 1, k');
      }
    } else {
      GetPut(m[1..], k, v, k');
      assert r[1..] == Put(m[1..], k, v);
    }
  }

  /** What a lookup sees after `m.erase(k)`. */
  lemma {:induction false} GetErase<V>(m: Entries<V>, k: string, k': string)
    requires Valid(m)
    ensures Get(Erase(m, k), k') == if k' == k then None else Get(m, k')
    decreases |m|
  {
    if k' == k {
      GetEraseSame(m, k);
    } else if |m| > 0 {
      if m[0].0 == k {
        GetEraseHead(m, k, k');
      } else {
        GetErase(m[1..], k, k');
        GetEraseTail(m, k, k');
      }
    }
  }

  /** The erased key is gone. */
  lemma GetEraseSame<V>(m: Entries<V>, k: string)
    requires Valid(m)
    ensures Get(Erase(m, k), k) == None
  {
    var r := Erase(m, k);
    assert forall i :: 0 <= i < |r| ==> r[i].0 != k by {
      forall i | 0 <= i < |r| ensures r[i].0 != k { assert r[i] in r; }
    }
  }

  /** Erasing the first key leaves every other lookup as it was. */
  lemma GetEraseHead<V>(m: Entries<V>, k: string, k': string)
    requires Valid(m) && |m| > 0 && m[0].0 == k && k' != k
    ensures Get(Erase(m, k), k') == Get(m, k')
  {
    var r := Erase(m, k);
    assert r == m[1..];
    if HasKey(m, k') {
      var i :| 0 <= i < |m| && m[i].0 == k';
      KeyPositionUnique(m, i, k');
      assert r[i - 1] == m[i];
      KeyPositionUnique(r, i - 1, k');
    }
  }

  /** Erasing a key after the first: the first entry stays in front of
      the rest erased. */
  lemma GetEraseTail<V>(m: Entries<V>, k: string, k': string)
    requires Valid(m) && |m| > 0 && m[0].0 != k && k' != k
    requires Get(Erase(m[1..], k), k') == Get(m[1..], k')
    ensures Get(Erase(m, k), k') == Get(m, k')
  {
    var r := Erase(m, k);
    assert r[0] == m[0] && r[1..] == Erase(m[1..], k);
    if m[0].0 != k' {
      GetPastFirst(m, k');
      GetPastFirst(r, k');
    }
  }

  /** A lookup of a key other than the first looks in the rest. */
  lemma GetPastFirst<V>(m: Entries<V>, k: string)
    requires |m| > 0 && m[0].0 != k
    ensures Get(m, k) == Get(m[1..], k)
  {
    match IndexOf(m[1..], k) {
      case Some(i) =>
        assert IndexOf(m, k) == Some(i + 1);
        assert m[i + 1] == m[1..][i];
      case None =>
        assert IndexOf(m, k) == None;
    }
  }
}
