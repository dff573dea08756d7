/** Lines with one more among them: where the others go, and the first key at a level. */
module YamlInsert {
  import opened Prelude
  import opened YamlLines
  import opened YamlEdit

  /** Where line `i` is once a line stands in front of line `p`. */
  function Bump(p: nat, r: Option<nat>): Option<nat> {
    match r
    case None => None
    case Some(i) => Some(if i < p then i else i + 1)
  }

  function Inserted<T>(a: seq<T>, p: nat, x: T): seq<T>
    requires p <= |a|
  {
    a[..p] + [x] + a[p..]
  }

  lemma InsertedTail<T>(a: seq<T>, p: nat, x: T)
    requires p <= |a|
    ensures p == 0 ==> Inserted(a, p, x)[1..] == a && Inserted(a, p, x)[0] == x
    ensures p > 0 ==> Inserted(a, p, x)[1..] == Inserted(a[1..], p - 1, x) && Inserted(a, p, x)[0] == a[0]
  {
  }

  lemma {:induction false} MinAfterInsert(a: seq<Line>, p: nat, x: Line)
    requires p <= |a| && IsActive(x)
    ensures MinActive(Inserted(a, p, x)) == Least(x.kind.indent, MinActive(a))
  {
    InsertedTail(a, p, x);
    if p > 0 {
      MinAfterInsert(a[1..], p - 1, x);
    }
  }

  lemma {:induction false} HeaderAfterInsert(a: seq<Line>, p: nat, x: Line, level: nat, seg: string)
    requires p <= |a| && !IsHeader(x, level, seg)
    ensures FindHeader(Inserted(a, p, x), level, seg) == Bump(p, FindHeader(a, level, seg))
  {
    hide IsHeader;
    InsertedTail(a, p, x);
    if p > 0 {
      HeaderAfterInsert(a[1..], p - 1, x, level, seg);
    }
  }

  lemma {:induction false} NewHeader(a: seq<Line>, p: nat, x: Line, level: nat, seg: string)
    requires p <= |a| && IsHeader(x, level, seg) && FindHeader(a, level, seg) == None
    ensures FindHeader(Inserted(a, p, x), level, seg) == Some(p)
  {
    InsertedTail(a, p, x);
    if p > 0 {
      NewHeader(a[1..], p - 1, x, level, seg);
    }
  }

  lemma {:induction false} BlockSamePrefix(v: seq<Line>, u: seq<Line>, m: nat, header: nat)
    requires m < |v| && m < |u| && v[..m + 1] == u[..m + 1] && EndsBlock(v[m], header)
    ensures BlockLen(v, header) == BlockLen(u, header) <= m
  {
    assert v[m] == v[..m + 1][m] == u[..m + 1][m] == u[m];
    if m > 0 {
      assert v[0] == v[..m + 1][0] == u[..m + 1][0] == u[0];
      assert v[1..][..m] == v[..m + 1][1..] == u[..m + 1][1..] == u[1..][..m];
      BlockSamePrefix(v[1..], u[1..], m - 1, header);
    }
  }

  lemma AppendIsInsert<T>(a: seq<T>, x: T)
    ensures a + [x] == Inserted(a, |a|, x)
  {
  }
}
