/** Types shared by the models of the SSH bastion. */
module Common {

  datatype Option<+T> = None | Some(value: T)

  datatype Result<+T> = Ok(value: T) | Err

  /** An octet, seen as a number. */
  newtype byte = x: int | 0 <= x < 256

  /** `s` as far as there is room for it. */
  function Cut<T>(s: seq<T>, room: nat): seq<T> {
    s[..if |s| <= room then |s| else room]
  }

  lemma CutTwice<T>(s: seq<T>, t: seq<T>, room: nat)
    ensures Cut(s + t, room) == Cut(s, room) + Cut(t, room - |Cut(s, room)|)
  {
  }

  lemma Regroup<T>(a: seq<T>, b: seq<T>, c: seq<T>)
    ensures a + (b + c) == a + b + c
  {
  }

  lemma Multiples(k: int, p: int)
    requires p > 0
    ensures k >= 1 ==> k * p >= p
    ensures k <= -1 ==> k * p <= -p
    ensures k <= -2 ==> k * p <= -2 * p
  {
  }

  lemma QuotientIs(v: int, d: nat, q: int, r: int)
    requires d > 0 && v == q * d + r && 0 <= r < d
    ensures v / d == q
  {
    var e := v / d - q;
    assert e * d == (v / d) * d - q * d;
    Multiples(e, d);
  }

  lemma {:induction false} CountSubset<T>(a: set<T>, b: set<T>)
    requires a <= b
    ensures |a| <= |b| && (|a| == |b| ==> a == b)
  {
    if a != {} {
      var x :| x in a;
      CountSubset(a - {x}, b - {x});
    }
  }
}
