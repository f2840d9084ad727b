/**
 Shared vocabulary of the model: optional references, engine object
 identities, colliders as seen by trigger and collision callbacks, and the
 two pieces of C# arithmetic the game relies on (the float-to-int cast and
 Unity's integer clamp).
 */
module Common {

  /** A nullable reference. */
  datatype Option<+T> = None | Some(value: T)

  /** Identity of a prefab (a template object that instances are cloned from). */
  type Template = nat

  /** Identity of a live scene object (an instance). */
  type Instance = nat

  /** A point in the plane. Geometry is not modelled; positions are only carried along. */
  datatype Pos = Pos(x: real, y: real)

  /** The tags the game compares colliders against. */
  datatype Tag = PlayerTag | EnemyTag | WallTag | ObstacleTag | OtherTag

  /**
   A collider handed to a physics callback: its tag, the enemy component on
   its object (if any), and whether its object carries the player component.
   */
  datatype Collider = Collider(tag: Tag, enemy: Option<Instance>, hasPlayer: bool)

  /**
   A draw of `Random.Range(0, n)` for an integer `n > 0`: the oracle supplies
   any natural `roll`, and the draw is `roll % n`. Every index of `[0, n)` is
   the draw of some roll (see `DrawReachesEveryIndex`).
   */
  function Draw(roll: nat, n: nat): (i: nat)
    requires n > 0
    ensures i < n
  {
    roll % n
  }

  lemma DrawReachesEveryIndex(n: nat, i: nat)
    requires i < n
    ensures Draw(i, n) == i
  {
  }

  /** The C# cast `(int)x` of a finite float: truncation toward zero. */
  function Truncate(x: real): (r: int)
    ensures 0.0 <= x ==> 0 <= r && r as real <= x < r as real + 1.0
    ensures x < 0.0 ==> r <= 0 && r as real - 1.0 < x <= r as real
  {
    if x >= 0.0 then x.Floor else -((-x).Floor)
  }

  /**
   Unity's integer `Mathf.Clamp(value, min, max)`: the lower bound is checked
   first, so with `max < min` a value above `max` comes back as `max`.
   */
  function Clamp(v: int, lo: int, hi: int): (r: int)
    ensures lo <= hi ==> lo <= r <= hi
    ensures lo <= v <= hi ==> r == v
    ensures v < lo ==> r == lo
    ensures lo <= v && hi < v ==> r == hi
  {
    if v < lo then lo else if v > hi then hi else v
  }

  /** Number of occurrences of `x` in `s`. */
  function Count<T(==)>(s: seq<T>, x: T): nat
  {
    if s == [] then 0 else (if s[0] == x then 1 else 0) + Count(s[1..], x)
  }

  lemma {:induction false} CountConcat<T>(a: seq<T>, b: seq<T>, x: T)
    ensures Count(a + b, x) == Count(a, x) + Count(b, x)
  {
    if a != [] {
      assert (a + b)[1..] == a[1..] + b;
      CountConcat(a[1..], b, x);
    } else {
      assert a + b == b;
    }
  }
}
