/** Shared vocabulary: identifiers, amounts, and ordered enumeration of finite sets. */
module Basics {

  datatype Option<+T> = None | Some(value: T)

  type Height = nat
  /** A name, as its rank in the order the source's ordered maps iterate. */
  type Name = nat
  type Nullifier = nat
  type Commitment = nat
  type TransparentAddress = nat
  type Timestamp = int
  type Zatoshis = nat
  type OtpCode = nat

  /** A controller address: an opaque identity and its optional transparent receiver. */
  datatype UnifiedAddress = UnifiedAddress(id: nat, transparent: Option<TransparentAddress>)

  /** One Julian year, in seconds. */
  const LIVENESS_INTERVAL: int := 31_557_600

  predicate IsLeast(s: set<nat>, x: nat) {
    x in s && forall y | y in s :: x <= y
  }

  lemma {:induction false} LeastExists(s: set<nat>) returns (x: nat)
    requires s != {}
    ensures IsLeast(s, x)
    decreases |s|
  {
    x :| x in s;
    var rest := s - {x};
    assert forall y | y in s :: y == x || y in rest;
    if rest != {} {
      var z := LeastExists(rest);
      x := if x <= z then x else z;
    }
  }

  function Least(s: set<nat>): (x: nat)
    requires s != {}
    ensures x in s && forall y | y in s :: x <= y
  {
    assert exists x: nat :: IsLeast(s, x) by { var x := LeastExists(s); }
    var x: nat :| IsLeast(s, x);
    x
  }

  /** The elements of `s`, ascending: the order in which an ordered map visits its keys. */
  function Ascending(s: set<nat>): (r: seq<nat>)
    ensures forall x :: x in r <==> x in s
    ensures forall i, j | 0 <= i < j < |r| :: r[i] < r[j]
    decreases |s|
  {
    if s == {} then []
    else
      var x := Least(s);
      [x] + Ascending(s - {x})
  }

  function ToSet<T(==,!new)>(s: seq<T>): (r: set<T>)
    ensures forall x :: x in r <==> x in s
  {
    set x | x in s
  }

  /** The entry of a height-indexed stack that is current at height `h`. */
  ghost predicate IsLatest<T>(m: map<Height, T>, h: Height, k: Height) {
    k in m && k <= h && forall j | j in m && j <= h :: j <= k
  }

  /** The newest entry at or below `h`, or `default` when there is none. */
  function LatestAt<T>(m: map<Height, T>, h: Height, default: T): (r: T)
    ensures forall k | IsLatest(m, h, k) :: r == m[k]
    ensures (forall k | k in m :: k > h) ==> r == default
  {
    var keys := set k | k in m && k <= h;
    assert forall j | j in m && j <= h :: j in keys;
    if keys == {} then default else m[Greatest(keys)]
  }

  lemma GreatestExists(s: set<nat>)
    requires s != {}
    ensures exists x :: x in s && forall y | y in s :: y <= x
  {
    var x :| x in s;
    var rest := s - {x};
    assert s == rest + {x};
    if rest != {} {
      GreatestExists(rest);
      var z :| z in rest && forall y | y in rest :: y <= z;
      var m := if x >= z then x else z;
      assert forall y | y in rest + {x} :: y <= m;
    }
  }

  function Greatest(s: set<nat>): (x: nat)
    requires s != {}
    ensures x in s && forall y | y in s :: y <= x
  {
    GreatestExists(s);
    var x :| x in s && forall y | y in s :: y <= x;
    x
  }

  lemma LatestAgree<T>(m: map<Height, T>, n: map<Height, T>, h: Height, default: T)
    requires forall j | j <= h :: (j in m <==> j in n) && (j in m ==> m[j] == n[j])
    ensures LatestAt(m, h, default) == LatestAt(n, h, default)
  {
    assert (set k | k in m && k <= h) == (set k | k in n && k <= h);
  }

  lemma LatestOfPut<T>(m: map<Height, T>, k: Height, v: T, tip: Height, default: T)
    requires forall j | j in m :: j <= k
    requires k <= tip
    ensures LatestAt(m[k := v], tip, default) == v
  {
    assert IsLatest(m[k := v], tip, k);
  }

  lemma LatestRaised<T>(m: map<Height, T>, tip: Height, height: Height, default: T)
    requires forall k | k in m :: k <= tip
    requires tip <= height
    ensures LatestAt(m, height, default) == LatestAt(m, tip, default)
  {
    assert (set k | k in m && k <= height) == (set k | k in m && k <= tip);
  }
}
