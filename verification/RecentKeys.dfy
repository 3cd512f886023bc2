/** Which keys of a request trace are the most recently requested ones. */
module RecentKeys {
  datatype Ask = Ask(key: string, now: int)

  ghost function Keys(asks: seq<Ask>): set<string> {
    if asks == [] then {} else Keys(asks[..|asks| - 1]) + {asks[|asks| - 1].key}
  }

  /** The keys requested from position `w` on. */
  ghost function KeysFrom(asks: seq<Ask>, w: nat): set<string>
    requires w <= |asks|
  {
    Keys(asks[w..])
  }

  ghost predicate Increasing(asks: seq<Ask>) {
    forall i, j :: 0 <= i < j < |asks| ==> asks[i].now < asks[j].now
  }

  /** `key` occurs in a suffix of the trace that names at most `k` distinct keys: it is one of the
      `k` most recently requested keys.  */
  ghost predicate AmongLatest(asks: seq<Ask>, key: string, k: nat) {
    exists i :: 0 <= i <= |asks| && key in Keys(asks[i..]) && |Keys(asks[i..])| <= k
  }

  /** `w` starts the longest suffix that names at most `k` distinct keys. */
  ghost predicate IsWindow(asks: seq<Ask>, k: nat, w: nat) {
    && w <= |asks|
    && |Keys(asks[w..])| <= k
    && (w > 0 ==> |Keys(asks[w - 1..])| > k)
  }

  /** `p` is the position of the last request for `key`. */
  ghost predicate IsLast(asks: seq<Ask>, key: string, p: nat) {
    && p < |asks| && asks[p].key == key
    && forall j :: p < j < |asks| ==> asks[j].key != key
  }

  lemma {:induction false} LastExists(asks: seq<Ask>, key: string, w: nat) returns (p: nat)
    requires w <= |asks| && key in Keys(asks[w..])
    ensures w <= p && IsLast(asks, key, p)
    decreases |asks| - w
  {
    KeysOfSuffix(asks, w, key);
    p :| w <= p < |asks| && asks[p].key == key;
    if !IsLast(asks, key, p) {
      KeysOfSuffix(asks, p + 1, key);
      p := LastExists(asks, key, p + 1);
    }
  }

  lemma SubsetIsNoLarger<T>(a: set<T>, b: set<T>)
    requires a <= b
    ensures |a| <= |b|
  {
    assert b == a + (b - a);
  }

  lemma {:induction false} KeysOfAll(asks: seq<Ask>, key: string)
    ensures key in Keys(asks) <==> exists i :: 0 <= i < |asks| && asks[i].key == key
  {
    if asks != [] {
      KeysOfAll(asks[..|asks| - 1], key);
      if i :| 0 <= i < |asks| && asks[i].key == key && i != |asks| - 1 {
        assert asks[..|asks| - 1][i].key == key;
      }
    }
  }

  lemma KeysOfSuffix(asks: seq<Ask>, w: nat, key: string)
    requires w <= |asks|
    ensures key in Keys(asks[w..]) <==> exists i :: w <= i < |asks| && asks[i].key == key
  {
    KeysOfAll(asks[w..], key);
    if i :| w <= i < |asks| && asks[i].key == key {
      assert asks[w..][i - w] == asks[i];
    }
  }

  lemma KeysShrink(asks: seq<Ask>, i: nat, j: nat)
    requires i <= j <= |asks|
    ensures Keys(asks[j..]) <= Keys(asks[i..])
    ensures |Keys(asks[j..])| <= |Keys(asks[i..])|
  {
    forall k | k in Keys(asks[j..]) ensures k in Keys(asks[i..]) {
      KeysOfSuffix(asks, j, k);
      KeysOfSuffix(asks, i, k);
    }
    SubsetIsNoLarger(Keys(asks[j..]), Keys(asks[i..]));
  }

  lemma KeysCons(asks: seq<Ask>, i: nat)
    requires i < |asks|
    ensures Keys(asks[i..]) == Keys(asks[i + 1..]) + {asks[i].key}
  {
    forall k ensures k in Keys(asks[i..]) <==> k in Keys(asks[i + 1..]) + {asks[i].key} {
      KeysOfSuffix(asks, i, k);
      KeysOfSuffix(asks, i + 1, k);
    }
  }

  lemma KeysSnoc(asks: seq<Ask>, ask: Ask, w: nat)
    requires w <= |asks|
    ensures Keys((asks + [ask])[w..]) == Keys(asks[w..]) + {ask.key}
  {
    assert (asks + [ask])[w..] == asks[w..] + [ask];
    assert (asks[w..] + [ask])[..|asks| - w] == asks[w..];
  }

  /** Membership in the window is membership among the `k` latest. */
  lemma WindowIsLatest(asks: seq<Ask>, k: nat, w: nat, key: string)
    requires IsWindow(asks, k, w)
    ensures key in Keys(asks[w..]) <==> AmongLatest(asks, key, k)
  {
    if AmongLatest(asks, key, k) {
      var i :| 0 <= i <= |asks| && key in Keys(asks[i..]) && |Keys(asks[i..])| <= k;
      if i < w {
        KeysShrink(asks, i, w - 1);
      }
      KeysShrink(asks, w, i);
    }
  }

  /** A larger allowance never loses a key. */
  lemma LatestIsMonotone(asks: seq<Ask>, key: string, k: nat, k': nat)
    requires k <= k' && AmongLatest(asks, key, k)
    ensures AmongLatest(asks, key, k')
  {
    var i :| 0 <= i <= |asks| && key in Keys(asks[i..]) && |Keys(asks[i..])| <= k;
    assert key in Keys(asks[i..]) && |Keys(asks[i..])| <= k';
  }

  /** A request for a windowed key, or one there is room for, leaves the window's start alone. */
  lemma WindowStays(asks: seq<Ask>, ask: Ask, k: nat, w: nat)
    requires IsWindow(asks, k, w) && w <= |asks|
    requires ask.key in KeysFrom(asks, w) || |KeysFrom(asks, w)| < k
    ensures IsWindow(asks + [ask], k, w) && KeysFrom(asks + [ask], w) == KeysFrom(asks, w) + {ask.key}
  {
    KeysSnoc(asks, ask, w);
    if ask.key in Keys(asks[w..]) {
      assert Keys(asks[w..]) + {ask.key} == Keys(asks[w..]);
    }
    if w > 0 {
      KeysSnoc(asks, ask, w - 1);
      KeysCons(asks, w - 1);
      SubsetIsNoLarger(Keys(asks[w - 1..]), Keys(asks[w - 1..]) + {ask.key});
    }
  }

  /** A new key in a full window pushes its start just past the last request of the oldest key. */
  lemma WindowMoves(asks: seq<Ask>, ask: Ask, k: nat, w: nat, oldest: string, p: nat)
    requires IsWindow(asks, k, w) && w <= p < |asks| && asks[p].key == oldest
    requires ask.key !in KeysFrom(asks, w) && |KeysFrom(asks, w)| == k
    requires oldest in KeysFrom(asks, w) && KeysFrom(asks, p + 1) == KeysFrom(asks, w) - {oldest}
    ensures IsWindow(asks + [ask], k, p + 1)
    ensures KeysFrom(asks + [ask], p + 1) == KeysFrom(asks, w) - {oldest} + {ask.key}
  {
    hide Keys;
    KeysSnoc(asks, ask, p + 1);
    KeysSnoc(asks, ask, p);
    KeysCons(asks, p);
    assert Keys(asks[p..]) == Keys(asks[w..]);
    assert |Keys(asks[p..]) + {ask.key}| == k + 1;
  }
}
