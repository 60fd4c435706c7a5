/** The store of one cache namespace: at most so many values, dropping the one used least recently. */
module LruStore {
  import opened Collections
  import opened Wrappers

  type Key = string

  /** The entries in the order of their last use, the least recent first. */
  type Entries<V> = seq<(Key, V)>

  predicate HasKey<V>(s: Entries<V>, key: Key) { exists i :: 0 <= i < |s| && s[i].0 == key }

  predicate DistinctKeys<V>(s: Entries<V>) { forall i, j | 0 <= i < j < |s| :: s[i].0 != s[j].0 }

  function Find<V>(s: Entries<V>, key: Key): (r: Option<V>)
    ensures r.Some? <==> HasKey(s, key)
    ensures r.Some? ==> (key, r.value) in s
  {
    if s == [] then None else if s[0].0 == key then Some(s[0].1) else
      var rest := Find(s[1..], key);
      assert HasKey(s[1..], key) <==> HasKey(s, key) by {
        assert forall i | 0 < i < |s| :: s[i] == s[1..][i - 1];
      }
      rest
  }

  function Without<V>(s: Entries<V>, key: Key): Entries<V> {
    if s == [] then [] else (if s[0].0 == key then [] else [s[0]]) + Without(s[1..], key)
  }

  datatype Use<V> = Get(key: Key) | Set(key: Key, value: V) | Delete(key: Key) | Clear

  /** The entries after one use of a store that keeps at most `limit`. */
  function After<V>(s: Entries<V>, use: Use<V>, limit: nat): Entries<V> {
    match use
    case Get(key) => if Find(s, key).Some? then Without(s, key) + [(key, Find(s, key).value)] else s
    case Set(key, value) =>
      var all := Without(s, key) + [(key, value)];
      if |all| > limit then all[1..] else all
    case Delete(key) => Without(s, key)
    case Clear => []
  }

  function Run<V>(uses: seq<Use<V>>, limit: nat): Entries<V> {
    if uses == [] then [] else After(Run(uses[..|uses| - 1], limit), uses[|uses| - 1], limit)
  }

  // ---- One use ----

  lemma {:induction false} WithoutHolds<V>(s: Entries<V>, key: Key, e: (Key, V))
    ensures e in Without(s, key) <==> e in s && e.0 != key
  {
    if s == [] {
    } else {
      WithoutHolds(s[1..], key, e);
      assert s == [s[0]] + s[1..];
    }
  }

  lemma {:induction false} WithoutIsDistinct<V>(s: Entries<V>, key: Key)
    requires DistinctKeys(s)
    ensures DistinctKeys(Without(s, key)) && !HasKey(Without(s, key), key)
    ensures |Without(s, key)| == |s| - if HasKey(s, key) then 1 else 0
  {
    if s == [] {
    } else {
      var rest := s[1..];
      WithoutIsDistinct(rest, key);
      assert HasKey(s, key) <==> s[0].0 == key || HasKey(rest, key) by {
        assert forall i | 0 < i < |s| :: s[i] == rest[i - 1];
      }
      if s[0].0 == key {
        assert !HasKey(rest, key);
      }
      forall i | 0 <= i < |Without(rest, key)| ensures Without(rest, key)[i].0 != s[0].0 {
        WithoutHolds(rest, key, Without(rest, key)[i]);
      }
    }
  }

  lemma {:induction false} UseKeepsDistinct<V>(s: Entries<V>, use: Use<V>, limit: nat)
    requires DistinctKeys(s) && |s| <= limit
    ensures DistinctKeys(After(s, use, limit)) && |After(s, use, limit)| <= limit
  {
    if !use.Clear? {
      WithoutIsDistinct(s, use.key);
    }
  }

  /** Each key once, and never more than the limit. */
  lemma {:induction false} StaysWithinLimit<V>(uses: seq<Use<V>>, limit: nat)
    ensures DistinctKeys(Run(uses, limit)) && |Run(uses, limit)| <= limit
  {
    if uses == [] {
    } else {
      StaysWithinLimit(uses[..|uses| - 1], limit);
      UseKeepsDistinct(Run(uses[..|uses| - 1], limit), uses[|uses| - 1], limit);
    }
  }

  // ---- Two stores with different limits ----

  /** The first entries are some of the second ones, in the same order. */
  predicate Among<V(==)>(a: Entries<V>, b: Entries<V>) {
    a == [] || (b != [] && ((a[0] == b[0] && Among(a[1..], b[1..])) || Among(a, b[1..])))
  }

  lemma {:induction false} AmongLonger<V>(a: Entries<V>, b: Entries<V>, e: (Key, V))
    requires Among(a, b)
    ensures Among(a, b + [e]) && Among(a + [e], b + [e])
  {
    if b == [] {
      assert Among<V>([], [e][1..]);
    } else {
      assert (b + [e])[1..] == b[1..] + [e];
      if a == [] {
        AmongLonger([], b[1..], e);
      } else if a[0] == b[0] && Among(a[1..], b[1..]) {
        AmongLonger(a[1..], b[1..], e);
        assert (a + [e])[1..] == a[1..] + [e];
      } else {
        AmongLonger(a, b[1..], e);
      }
    }
  }

  lemma {:induction false} AmongLessFirst<V>(a: Entries<V>, b: Entries<V>)
    requires Among(a, b) && a != []
    ensures Among(a[1..], b)
    decreases |b|
  {
    if !(a[0] == b[0] && Among(a[1..], b[1..])) {
      AmongLessFirst(a, b[1..]);
    } else if a[1..] != [] {
      AmongMore(a[1..], b);
    }
  }

  lemma {:induction false} AmongMore<V>(a: Entries<V>, b: Entries<V>)
    requires b != [] && Among(a, b[1..])
    ensures Among(a, b)
  {
  }

  lemma {:induction false} AmongWithout<V>(a: Entries<V>, b: Entries<V>, key: Key)
    requires Among(a, b)
    ensures Among(Without(a, key), Without(b, key))
    decreases |b|
  {
    if a == [] {
    } else {
      if a[0] == b[0] && Among(a[1..], b[1..]) {
        AmongWithout(a[1..], b[1..], key);
        if a[0].0 == key {
          assert Without(a, key) == Without(a[1..], key) && Without(b, key) == Without(b[1..], key);
        } else {
          assert Without(b, key)[1..] == Without(b[1..], key) && Without(a, key)[1..] == Without(a[1..], key);
        }
      } else {
        AmongWithout(a, b[1..], key);
        if b[0].0 == key {
          assert Without(b, key) == Without(b[1..], key);
        } else {
          assert Without(b, key)[1..] == Without(b[1..], key);
          AmongMore(Without(a, key), Without(b, key));
        }
      }
    }
  }

  lemma {:induction false} AmongHolds<V>(a: Entries<V>, b: Entries<V>, e: (Key, V))
    requires Among(a, b) && e in a
    ensures e in b
    decreases |b|
  {
    if a[0] == b[0] && Among(a[1..], b[1..]) {
      if e != a[0] {
        AmongHolds(a[1..], b[1..], e);
      }
    } else {
      AmongHolds(a, b[1..], e);
    }
  }

  lemma {:induction false} WithoutAbsent<V>(s: Entries<V>, key: Key)
    requires !HasKey(s, key)
    ensures Without(s, key) == s
  {
    if s == [] {
    } else {
      assert s[0].0 != key;
      assert forall i | 0 < i < |s| :: s[i] == s[1..][i - 1];
      WithoutAbsent(s[1..], key);
    }
  }

  lemma {:induction false} OneValue<V>(s: Entries<V>, key: Key, value: V)
    requires DistinctKeys(s) && (key, value) in s
    ensures Find(s, key) == Some(value)
  {
    var i :| 0 <= i < |s| && s[i] == (key, value);
    assert s[i].0 == key && HasKey(s, key);
    var found := Find(s, key).value;
    var j :| 0 <= j < |s| && s[j] == (key, found);
    assert s[j].0 == s[i].0;
  }

  lemma {:induction false} AbsentFromBoth<V>(a: Entries<V>, b: Entries<V>, key: Key)
    requires Among(a, b) && HasKey(a, key)
    ensures HasKey(b, key)
  {
    var i :| 0 <= i < |a| && a[i].0 == key;
    AmongHolds(a, b, a[i]);
    var j :| 0 <= j < |b| && b[j] == a[i];
  }

  /** Among, and short of it by no more than the limits differ. */
  predicate Follows<V(==)>(a: Entries<V>, b: Entries<V>, small: nat, large: nat) {
    && DistinctKeys(a) && DistinctKeys(b) && |a| <= small <= large && |b| <= large
    && Among(a, b) && |b| - |a| <= large - small
  }

  lemma {:induction false} SetFollows<V>(a: Entries<V>, b: Entries<V>, key: Key, value: V, small: nat, large: nat)
    requires Follows(a, b, small, large)
    ensures Follows(After(a, Set(key, value), small), After(b, Set(key, value), large), small, large)
  {
    WithoutIsDistinct(a, key);
    WithoutIsDistinct(b, key);
    AmongWithout(a, b, key);
    if HasKey(a, key) {
      AbsentFromBoth(a, b, key);
    }
    var e := (key, value);
    var x, y := Without(a, key) + [e], Without(b, key) + [e];
    AmongLonger(Without(a, key), Without(b, key), e);
    if |x| > small {
      AmongLessFirst(x, y);
      if |y| > large {
        FirstOfBoth(x, y);
      }
    }
  }

  lemma {:induction false} FirstOfBoth<V>(x: Entries<V>, y: Entries<V>)
    requires Among(x, y) && x != []
    ensures Among(x[1..], y[1..])
  {
    if !(x[0] == y[0] && Among(x[1..], y[1..])) {
      AmongLessFirst(x, y[1..]);
    }
  }

  lemma {:induction false} GetFollows<V>(a: Entries<V>, b: Entries<V>, key: Key, small: nat, large: nat)
    requires Follows(a, b, small, large)
    ensures Follows(After(a, Get(key), small), After(b, Get(key), large), small, large)
    ensures Find(a, key).Some? ==> Find(a, key) == Find(b, key)
  {
    WithoutIsDistinct(a, key);
    WithoutIsDistinct(b, key);
    AmongWithout(a, b, key);
    if Find(a, key).Some? {
      AmongHolds(a, b, (key, Find(a, key).value));
      OneValue(b, key, Find(a, key).value);
      AmongLonger(Without(a, key), Without(b, key), (key, Find(a, key).value));
    } else if Find(b, key).Some? {
      WithoutAbsent(a, key);
      AmongLonger(a, Without(b, key), (key, Find(b, key).value));
    }
  }

  lemma {:induction false} UseFollows<V>(a: Entries<V>, b: Entries<V>, use: Use<V>, small: nat, large: nat)
    requires Follows(a, b, small, large)
    ensures Follows(After(a, use, small), After(b, use, large), small, large)
  {
    match use
    case Get(key) => GetFollows(a, b, key, small, large);
    case Set(key, value) => SetFollows(a, b, key, value, small, large);
    case Delete(key) =>
      WithoutIsDistinct(a, key);
      WithoutIsDistinct(b, key);
      AmongWithout(a, b, key);
      if HasKey(a, key) {
        AbsentFromBoth(a, b, key);
      }
    case Clear =>
  }

  /** After the same uses, a store holds some of what a larger one holds, in the same order. */
  lemma {:induction false} LargerHoldsMore<V>(uses: seq<Use<V>>, small: nat, large: nat)
    requires small <= large
    ensures Follows(Run(uses, small), Run(uses, large), small, large)
  {
    if uses == [] {
    } else {
      LargerHoldsMore(uses[..|uses| - 1], small, large);
      UseFollows(Run(uses[..|uses| - 1], small), Run(uses[..|uses| - 1], large), uses[|uses| - 1], small, large);
    }
  }

  // ---- The map without a limit ----

  function Latest<V>(uses: seq<Use<V>>): map<Key, V> {
    if uses == [] then map[]
    else
      var before := Latest(uses[..|uses| - 1]);
      match uses[|uses| - 1]
      case Get(_) => before
      case Set(key, value) => before[key := value]
      case Delete(key) => before - {key}
      case Clear => map[]
  }

  /** A hit answers the last value written. */
  lemma {:induction false} HitsAreLatest<V>(uses: seq<Use<V>>, limit: nat, e: (Key, V))
    requires e in Run(uses, limit)
    ensures e.0 in Latest(uses) && Latest(uses)[e.0] == e.1
  {
    var n := |uses| - 1;
    var before, use := Run(uses[..n], limit), uses[n];
    StaysWithinLimit(uses[..n], limit);
    if !use.Clear? {
      WithoutHolds(before, use.key, e);
      if e in before {
        HitsAreLatest(uses[..n], limit, e);
      }
    }
  }

  /** A store that never fills up misses nothing. */
  lemma {:induction false} NothingDroppedBelowLimit<V>(uses: seq<Use<V>>, limit: nat, key: Key)
    requires |uses| <= limit && key in Latest(uses)
    ensures (key, Latest(uses)[key]) in Run(uses, limit) && |Run(uses, limit)| <= |uses|
  {
    RoomForAll(uses, limit);
    var n := |uses| - 1;
    var before, use := Run(uses[..n], limit), uses[n];
    RoomForAll(uses[..n], limit);
    StaysWithinLimit(uses[..n], limit);
    WithoutIsDistinct(before, use.key);
    if use.Set? && use.key == key {
      assert (key, use.value) in Without(before, key) + [(key, use.value)];
    } else {
      NothingDroppedBelowLimit(uses[..n], limit, key);
      WithoutHolds(before, use.key, (key, Latest(uses)[key]));
      if use.Get? && use.key == key {
        OneValue(before, key, Latest(uses)[key]);
      }
    }
  }

  lemma {:induction false} RoomForAll<V>(uses: seq<Use<V>>, limit: nat)
    requires |uses| <= limit
    ensures |Run(uses, limit)| <= |uses|
  {
    if uses == [] {
    } else {
      var n := |uses| - 1;
      RoomForAll(uses[..n], limit);
      StaysWithinLimit(uses[..n], limit);
      if !uses[n].Clear? {
        WithoutIsDistinct(Run(uses[..n], limit), uses[n].key);
      }
    }
  }

  // ---- What is dropped ----

  function KeysOf<V>(s: Entries<V>): set<Key> { set i | 0 <= i < |s| :: s[i].0 }

  /** The keys whose last use is later than that of this one. */
  function Behind<V>(s: Entries<V>, key: Key): set<Key> {
    if s == [] then {} else if s[0].0 == key then KeysOf(s[1..]) else Behind(s[1..], key)
  }

  lemma {:induction false} CountsKeys<V>(s: Entries<V>)
    requires DistinctKeys(s)
    ensures |KeysOf(s)| == |s|
  {
    if s == [] {
    } else {
      CountsKeys(s[1..]);
      KeysOfRest(s);
      assert s[0].0 !in KeysOf(s[1..]);
    }
  }

  lemma {:induction false} KeysOfRest<V>(s: Entries<V>)
    requires s != []
    ensures KeysOf(s) == {s[0].0} + KeysOf(s[1..])
  {
    assert forall i | 0 < i < |s| :: s[i] == s[1..][i - 1];
  }

  lemma {:induction false} HasKeyOfRest<V>(s: Entries<V>, key: Key)
    requires s != []
    ensures HasKey(s, key) <==> s[0].0 == key || HasKey(s[1..], key)
  {
    assert forall i | 0 < i < |s| :: s[i] == s[1..][i - 1];
  }

  /** All the other keys are behind the first one, and no other has so many behind it. */
  lemma {:induction false} CountsBehind<V>(s: Entries<V>, key: Key)
    requires DistinctKeys(s) && HasKey(s, key)
    ensures |Behind(s, key)| <= |s| - 1 && (|Behind(s, key)| == |s| - 1 <==> s[0].0 == key)
    ensures key !in Behind(s, key)
  {
    CountsKeys(s[1..]);
    if s[0].0 == key {
      assert forall i | 0 < i < |s| :: s[i] == s[1..][i - 1];
    } else {
      HasKeyOfRest(s, key);
      CountsBehind(s[1..], key);
    }
  }

  lemma {:induction false} KeysWithout<V>(s: Entries<V>, key: Key)
    ensures KeysOf(Without(s, key)) == KeysOf(s) - {key}
  {
    forall k ensures k in KeysOf(Without(s, key)) <==> k in KeysOf(s) && k != key {
      if k in KeysOf(s) && k != key {
        var i :| 0 <= i < |s| && s[i].0 == k;
        WithoutHolds(s, key, s[i]);
      }
      if i :| 0 <= i < |Without(s, key)| && Without(s, key)[i].0 == k {
        WithoutHolds(s, key, Without(s, key)[i]);
      }
    }
  }

  lemma {:induction false} BehindWithout<V>(s: Entries<V>, key: Key, other: Key)
    requires key != other && HasKey(s, key)
    ensures HasKey(Without(s, other), key)
    ensures Behind(Without(s, other), key) == Behind(s, key) - {other}
  {
    var rest := s[1..];
    HasKeyOfRest(s, key);
    if s[0].0 == key {
      KeysWithout(rest, other);
      assert Without(s, other)[0] == s[0] && Without(s, other)[1..] == Without(rest, other);
    } else {
      BehindWithout(rest, key, other);
      if s[0].0 == other {
        assert Without(s, other) == Without(rest, other);
      } else {
        assert Without(s, other)[1..] == Without(rest, other);
        HasKeyOfRest(Without(s, other), key);
      }
    }
  }

  lemma {:induction false} BehindMore<V>(s: Entries<V>, key: Key, e: (Key, V))
    requires e.0 != key && HasKey(s, key)
    ensures HasKey(s + [e], key) && Behind(s + [e], key) == Behind(s, key) + {e.0}
  {
    var rest := s[1..];
    assert (s + [e])[1..] == rest + [e];
    HasKeyOfRest(s, key);
    HasKeyOfRest(s + [e], key);
    if s[0].0 == key {
      forall k ensures k in KeysOf(rest + [e]) <==> k in KeysOf(rest) || k == e.0 {
        assert (rest + [e])[|rest|] == e;
        if k in KeysOf(rest) {
          var i :| 0 <= i < |rest| && rest[i].0 == k;
          assert (rest + [e])[i] == rest[i];
        }
      }
    } else {
      BehindMore(rest, key, e);
    }
  }

  /** What a use leaves behind a key that it is not about. */
  function BehindAfter<V>(behind: set<Key>, use: Use<V>, found: bool): set<Key> {
    match use
    case Get(key) => if found then behind + {key} else behind
    case Set(key, _) => behind + {key}
    case Delete(key) => behind - {key}
    case Clear => {}
  }

  lemma {:induction false} KeptUnlessFull<V>(s: Entries<V>, use: Use<V>, limit: nat, key: Key)
    requires DistinctKeys(s) && |s| <= limit && HasKey(s, key) && !use.Clear? && use.key != key
    ensures var behind := BehindAfter(Behind(s, key), use, HasKey(s, use.key));
      && (HasKey(After(s, use, limit), key) <==> |behind| < limit)
      && (HasKey(After(s, use, limit), key) ==> Behind(After(s, use, limit), key) == behind)
  {
    var other, rest := use.key, Without(s, use.key);
    WithoutIsDistinct(s, other);
    BehindWithout(s, key, other);
    CountsBehind(rest, key);
    match use
    case Get(_) =>
      if HasKey(s, other) {
        BehindMore(rest, key, (other, Find(s, other).value));
      } else {
        WithoutAbsent(s, other);
      }
    case Set(_, value) => SetDropsFirst(rest, key, (other, value), limit);
    case Delete(_) =>
  }

  lemma {:induction false} SetDropsFirst<V>(rest: Entries<V>, key: Key, e: (Key, V), limit: nat)
    requires DistinctKeys(rest) && !HasKey(rest, e.0) && |rest| <= limit && HasKey(rest, key) && e.0 != key
    ensures var all := rest + [e];
      var after := if |all| > limit then all[1..] else all;
      && (HasKey(after, key) <==> |Behind(rest, key) + {e.0}| < limit)
      && (HasKey(after, key) ==> Behind(after, key) == Behind(rest, key) + {e.0})
  {
    var all := rest + [e];
    BehindMore(rest, key, e);
    CountsBehind(all, key);
    HasKeyOfRest(all, key);
    if all[0].0 == key {
      assert !HasKey(all[1..], key);
    }
  }

  /** The keys stored or found since use number `i`, and neither deleted nor cleared since. */
  function UsedSince<V>(uses: seq<Use<V>>, limit: nat, i: nat): set<Key> {
    if |uses| <= i + 1 then {}
    else
      var before, use := uses[..|uses| - 1], uses[|uses| - 1];
      BehindAfter(UsedSince(before, limit, i), use, !use.Clear? && HasKey(Run(before, limit), use.key))
  }

  /** Use number `i` stores or finds the key, and no later one is about it or clears the store. */
  predicate LastUsed<V>(uses: seq<Use<V>>, limit: nat, i: nat, key: Key) {
    && i < |uses| && (uses[i].Set? || uses[i].Get?) && uses[i].key == key
    && (uses[i].Get? ==> HasKey(Run(uses[..i], limit), key))
    && forall j | i < j < |uses| :: !uses[j].Clear? && uses[j].key != key
  }

  /** Since its last use, never so many others were used as the store holds. */
  predicate HadRoom<V>(uses: seq<Use<V>>, limit: nat, i: nat) {
    forall n | i < n <= |uses| :: |UsedSince(uses[..n], limit, i)| < limit
  }

  lemma {:induction false} HadRoomBefore<V>(uses: seq<Use<V>>, limit: nat, i: nat)
    requires |uses| > i + 1
    ensures HadRoom(uses, limit, i) <==>
              HadRoom(uses[..|uses| - 1], limit, i) && |UsedSince(uses, limit, i)| < limit
  {
    var before := uses[..|uses| - 1];
    assert uses[..|uses|] == uses;
    forall n | i < n < |uses| ensures uses[..n] == before[..n] {
    }
    if HadRoom(before, limit, i) && |UsedSince(uses, limit, i)| < limit {
      forall n | i < n <= |uses| ensures |UsedSince(uses[..n], limit, i)| < limit {
        assert n < |uses| ==> |UsedSince(before[..n], limit, i)| < limit;
      }
    }
  }

  lemma {:induction false} JustUsed<V>(uses: seq<Use<V>>, limit: nat, key: Key)
    requires uses != [] && LastUsed(uses, limit, |uses| - 1, key)
    ensures HasKey(Run(uses, limit), key) <==> limit > 0
    ensures HasKey(Run(uses, limit), key) ==> Behind(Run(uses, limit), key) == {}
  {
    var before := Run(uses[..|uses| - 1], limit);
    StaysWithinLimit(uses[..|uses| - 1], limit);
    StaysWithinLimit(uses, limit);
    WithoutIsDistinct(before, key);
    if limit > 0 {
      var s := Run(uses, limit);
      assert s[|s| - 1].0 == key;
      LastHasNoneBehind(s, key);
    }
  }

  lemma {:induction false} LastHasNoneBehind<V>(s: Entries<V>, key: Key)
    requires s != [] && DistinctKeys(s) && s[|s| - 1].0 == key
    ensures Behind(s, key) == {}
  {
    if |s| == 1 {
    } else {
      LastHasNoneBehind(s[1..], key);
    }
  }

  /**
   * The least recently used goes first: a key is still there after its last use exactly when at no time since then so
   * many others had been used, and not deleted, as the store holds.
   */
  lemma {:induction false} DroppedExactly<V>(uses: seq<Use<V>>, limit: nat, i: nat, key: Key)
    requires LastUsed(uses, limit, i, key)
    ensures HasKey(Run(uses, limit), key) <==> HadRoom(uses, limit, i)
    ensures HasKey(Run(uses, limit), key) ==> Behind(Run(uses, limit), key) == UsedSince(uses, limit, i)
  {
    var n := |uses| - 1;
    assert uses[..n][..i] == uses[..i];
    if i == n {
      JustUsed(uses, limit, key);
      assert UsedSince(uses[..|uses|], limit, i) == {};
    } else {
      DroppedExactly(uses[..n], limit, i, key);
      HadRoomBefore(uses, limit, i);
      OneMoreUse(uses, limit, i, key);
    }
  }

  lemma {:induction false} OneMoreUse<V>(uses: seq<Use<V>>, limit: nat, i: nat, key: Key)
    requires i + 1 < |uses| && LastUsed(uses, limit, i, key)
    requires var before := Run(uses[..|uses| - 1], limit);
             HasKey(before, key) ==> Behind(before, key) == UsedSince(uses[..|uses| - 1], limit, i)
    ensures var before, after := Run(uses[..|uses| - 1], limit), Run(uses, limit);
      && (HasKey(after, key) <==> HasKey(before, key) && |UsedSince(uses, limit, i)| < limit)
      && (HasKey(after, key) ==> Behind(after, key) == UsedSince(uses, limit, i))
  {
    var before, use := Run(uses[..|uses| - 1], limit), uses[|uses| - 1];
    StaysWithinLimit(uses[..|uses| - 1], limit);
    if HasKey(before, key) {
      KeptUnlessFull(before, use, limit, key);
    } else {
      NeverAdded(before, use, limit, key);
    }
  }

  lemma {:induction false} NeverAdded<V>(s: Entries<V>, use: Use<V>, limit: nat, key: Key)
    requires !HasKey(s, key) && !use.Clear? && use.key != key
    ensures !HasKey(After(s, use, limit), key)
  {
    if i :| 0 <= i < |After(s, use, limit)| && After(s, use, limit)[i].0 == key {
      WithoutHolds(s, use.key, After(s, use, limit)[i]);
    }
  }

  /** As long as nothing is deleted, it is missing exactly when at least so many others were used after it. */
  lemma {:induction false} DroppedWithoutDeletes<V>(uses: seq<Use<V>>, limit: nat, i: nat, key: Key)
    requires LastUsed(uses, limit, i, key) && forall j | i < j < |uses| :: !uses[j].Delete?
    ensures !HasKey(Run(uses, limit), key) <==> |UsedSince(uses, limit, i)| >= limit
  {
    DroppedExactly(uses, limit, i, key);
    forall n | i < n <= |uses| ensures |UsedSince(uses[..n], limit, i)| <= |UsedSince(uses, limit, i)| {
      UsedSinceGrows(uses, limit, i, n);
      SubsetIsSmaller(UsedSince(uses[..n], limit, i), UsedSince(uses, limit, i));
    }
    assert uses[..|uses|] == uses;
  }

  lemma {:induction false} UsedSinceGrows<V>(uses: seq<Use<V>>, limit: nat, i: nat, n: nat)
    requires i < n <= |uses| && forall j | i < j < |uses| :: !uses[j].Delete? && !uses[j].Clear?
    ensures UsedSince(uses[..n], limit, i) <= UsedSince(uses, limit, i)
  {
    if n == |uses| {
      assert uses[..n] == uses;
    } else {
      var before := uses[..|uses| - 1];
      UsedSinceGrows(before, limit, i, n);
      assert before[..n] == uses[..n];
    }
  }

  lemma {:induction false} SetsNew<V>(uses: seq<Use<V>>, limit: nat, s: Entries<V>, key: Key, value: V)
    requires Run(uses, limit) == s && !HasKey(s, key) && |s| < limit
    ensures Run(uses + [Set(key, value)], limit) == s + [(key, value)]
  {
    assert (uses + [Set(key, value)])[..|uses|] == uses;
    WithoutAbsent(s, key);
  }

  lemma {:induction false} DeletesLast<V>(uses: seq<Use<V>>, limit: nat, s: Entries<V>, e: (Key, V))
    requires Run(uses, limit) == s + [e] && !HasKey(s, e.0) && DistinctKeys(s + [e])
    ensures Run(uses + [Delete(e.0)], limit) == s
  {
    assert (uses + [Delete(e.0)])[..|uses|] == uses;
    assert (s + [e])[|s|] == e && (s + [e])[..|s|] == s;
    WithoutOne(s + [e], |s|);
  }

  /** A deleted key leaves room: in a store of two, two others are used after a key, and it is still there. */
  lemma {:induction false} ADeleteMakesRoom<V>(a: Key, b: Key, c: Key, value: V)
    requires a != b && a != c
    ensures HasKey(Run([Set(a, value), Set(b, value), Delete(b), Set(c, value)], 2), a)
  {
    var one, two := [Set(a, value)], [Set(a, value), Set(b, value)];
    var three := two + [Delete(b)];
    SetsNew([], 2, [], a, value);
    assert [] + one == one && [] + [(a, value)] == [(a, value)];
    SetsNew(one, 2, [(a, value)], b, value);
    assert one + [Set(b, value)] == two;
    DeletesLast(two, 2, [(a, value)], (b, value));
    SetsNew(three, 2, [(a, value)], c, value);
    assert three + [Set(c, value)] == [Set(a, value), Set(b, value), Delete(b), Set(c, value)];
    assert ([(a, value)] + [(c, value)])[0].0 == a;
  }

  // ---- The store ----

  class LruStore<V> {
    var entries: Entries<V>
    const maxEntries: nat

    ghost predicate Valid()
      reads this
    {
      DistinctKeys(entries) && |entries| <= maxEntries
    }

    constructor (limit: nat)
      ensures Valid() && entries == [] && maxEntries == limit
    {
      entries, maxEntries := [], limit;
    }

    method Get(key: Key) returns (value: Option<V>)
      requires Valid()
      modifies this
      ensures Valid() && entries == After(old(entries), Use.Get(key), maxEntries) && value == Find(old(entries), key)
    {
      UseKeepsDistinct(entries, Use.Get(key), maxEntries);
      value := Find(entries, key);
      if value.Some? {
        Remove(key);
        entries := entries + [(key, value.value)];
      }
    }

    method Set(key: Key, value: V)
      requires Valid()
      modifies this
      ensures Valid() && entries == After(old(entries), Use.Set(key, value), maxEntries)
      ensures maxEntries >= 1 ==> Find(entries, key) == Some(value)
    {
      UseKeepsDistinct(entries, Use.Set(key, value), maxEntries);
      Remove(key);
      entries := entries + [(key, value)];
      if |entries| > maxEntries { entries := entries[1..]; }
      if maxEntries >= 1 {
        assert entries[|entries| - 1] == (key, value);
        OneValue(entries, key, value);
      }
    }

    method Delete(key: Key) returns (deleted: bool)
      requires Valid()
      modifies this
      ensures Valid() && entries == After(old(entries), Use.Delete(key), maxEntries)
      ensures deleted == HasKey(old(entries), key)
    {
      UseKeepsDistinct(entries, Use.Delete(key), maxEntries);
      deleted := HasKey(entries, key);
      Remove(key);
    }

    method Clear()
      modifies this
      ensures Valid() && entries == []
    {
      entries := [];
    }

    /** Takes the key out of its place, if it has one. */
    method Remove(key: Key)
      requires DistinctKeys(entries)
      modifies this
      ensures entries == Without(old(entries), key)
    {
      var i := 0;
      while i < |entries| && entries[i].0 != key
        invariant i <= |entries| && entries == old(entries)
        invariant forall k | 0 <= k < i :: entries[k].0 != key
      {
        i := i + 1;
      }
      if i < |entries| {
        WithoutOne(entries, i);
        entries := entries[..i] + entries[i + 1..];
      } else {
        WithoutAbsent(entries, key);
      }
    }
  }

  /** Without the key of one entry: the others, in their order. */
  lemma {:induction false} WithoutOne<V>(s: Entries<V>, i: nat)
    requires DistinctKeys(s) && i < |s|
    ensures Without(s, s[i].0) == s[..i] + s[i + 1..]
  {
    var rest := s[1..];
    if i == 0 {
      forall k | 0 <= k < |rest| ensures rest[k].0 != s[0].0 {
        assert rest[k] == s[k + 1];
      }
      WithoutAbsent(rest, s[0].0);
    } else {
      WithoutOne(rest, i - 1);
      assert rest[i - 1] == s[i] && rest[..i - 1] == s[1..i] && rest[i..] == s[i + 1..];
      assert [s[0]] + (s[1..i] + s[i + 1..]) == s[..i] + s[i + 1..];
    }
  }
}
