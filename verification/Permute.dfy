/** The in-place block exchange at the heart of getopt's argument permutation
    (USBPcapCMD/getopt.c, gcd and permute_args).

    Two adjacent blocks of m and n entries are exchanged by following
    gcd(m, n) cycles of the map p -> (p + n) mod (m + n). The module proves the
    number theory that makes this work: each cycle closes after exactly
    (m + n) / gcd(m, n) steps, never meets a position twice, and covers
    precisely the positions of one residue class modulo the gcd. */
module Permute {

  // ---------- greatest common divisor ----------

  function Euclid(a: nat, b: nat): nat
    decreases b
  {
    if b == 0 then a else Euclid(b, a % b)
  }

  ghost predicate Divides(d: nat, a: nat) {
    d > 0 && a % d == 0
  }

  /** The loop of gcd computes Euclid's function. */
  method Gcd(a0: nat, b0: nat) returns (g: nat)
    requires b0 > 0
    ensures g == Euclid(a0, b0)
  {
    var a, b := a0, b0;
    var c := a % b;
    while c != 0
      invariant b > 0 && c == a % b
      invariant Euclid(a, b) == Euclid(a0, b0)
      decreases c
    {
      a := b;
      b := c;
      c := a % b;
    }
    g := b;
  }

  // Ring arithmetic, one identity at a time.

  lemma Assoc(a: int, b: int, c: int)
    ensures (a * b) * c == a * (b * c)
  {}

  lemma Distrib(a: int, b: int, c: int)
    ensures (a + b) * c == a * c + b * c
    ensures (a - b) * c == a * c - b * c
    ensures c * (a + b) == c * a + c * b
    ensures c * (a - b) == c * a - c * b
  {}

  lemma DivMod(a: int, b: nat)
    requires b > 0
    ensures a == b * (a / b) + a % b
  {}

  /** A multiple of l strictly between -l and l is zero. */
  lemma SmallMultiple(d: int, l: nat)
    requires 0 - l < l * d < l
    ensures d == 0
  {}

  lemma ModUnique(a: int, q: int, r: nat, l: nat)
    requires r < l && a == q * l + r
    ensures a % l == r && a / l == q
  {
    DivMod(a, l);
    Distrib(a / l, q, l);
    SmallMultiple(a / l - q, l);
  }

  lemma IsMultiple(d: nat, k: int, a: nat)
    requires d > 0 && a == k * d
    ensures Divides(d, a) && a / d == k
  {
    ModUnique(a, k, 0, d);
  }

  lemma {:induction false} EuclidBezout(a: nat, b: nat) returns (x: int, y: int)
    ensures x * a + y * b == Euclid(a, b)
    decreases b
  {
    if b == 0 {
      x, y := 1, 0;
    } else {
      var x', y' := EuclidBezout(b, a % b);
      var q := a / b;
      x, y := y', x' - y' * q;
      DivMod(a, b);
      BezoutStep(a, b, q, a % b, x', y');
    }
  }

  lemma BezoutStep(a: int, b: int, q: int, r: int, x: int, y: int)
    requires a == b * q + r
    ensures y * a + (x - y * q) * b == x * b + y * r
  {
    Distrib(b * q, r, y);
    Distrib(x, y * q, b);
    Assoc(y, q, b);
    assert q * b == b * q;
  }

  lemma {:induction false} EuclidDivides(a: nat, b: nat)
    requires a > 0 || b > 0
    ensures Euclid(a, b) > 0 && Divides(Euclid(a, b), a) && Divides(Euclid(a, b), b)
    decreases b
  {
    if b == 0 {
      IsMultiple(a, 1, a);
      IsMultiple(a, 0, 0);
    } else {
      EuclidDivides(b, a % b);
      var g := Euclid(b, a % b);
      var k, r, q := b / g, (a % b) / g, a / b;
      DivMod(b, g);
      DivMod(a % b, g);
      DivMod(a, b);
      assert a == (k * q + r) * g by {
        Distrib(k * q, r, g);
        Assoc(g, k, q);
        Assoc(k, q, g);
        Assoc(g, k, q);
        assert (k * q) * g == g * (k * q);
      }
      IsMultiple(g, k * q + r, a);
    }
  }

  lemma Combination(d: nat, a: nat, b: nat, x: int, y: int, g: nat)
    requires Divides(d, a) && Divides(d, b) && x * a + y * b == g
    ensures Divides(d, g)
  {
    var p, q := a / d, b / d;
    DivMod(a, d);
    DivMod(b, d);
    Assoc(x, p, d);
    Assoc(y, q, d);
    Distrib(x * p, y * q, d);
    IsMultiple(d, x * p + y * q, g);
  }

  lemma DividesAtMost(d: nat, g: nat)
    requires Divides(d, g) && g > 0
    ensures d <= g
  {}

  /** What gcd is for: a common divisor, and the greatest one. */
  lemma GcdIsGreatest(a: nat, b: nat)
    requires a > 0 || b > 0
    ensures Divides(Euclid(a, b), a) && Divides(Euclid(a, b), b)
    ensures forall d: nat :: Divides(d, a) && Divides(d, b) ==> Divides(d, Euclid(a, b)) && d <= Euclid(a, b)
  {
    EuclidDivides(a, b);
    var x, y := EuclidBezout(a, b);
    forall d: nat | Divides(d, a) && Divides(d, b)
      ensures Divides(d, Euclid(a, b)) && d <= Euclid(a, b)
    {
      Combination(d, a, b, x, y, Euclid(a, b));
      DividesAtMost(d, Euclid(a, b));
    }
  }

  // ---------- orbits of the exchange ----------

  /** Where the entry at block-relative position p has to go. */
  function Next(m: nat, n: nat, p: nat): (q: nat)
    requires p < m + n
    ensures q < m + n
  {
    if p >= m then p - m else p + n
  }

  /** The position reached after t steps of the cycle started at m + i. */
  function Orbit(m: nat, n: nat, i: nat, t: nat): (p: nat)
    requires m + n > 0
    ensures p < m + n
  {
    (m + i + t * n) % (m + n)
  }

  lemma OrbitStart(m: nat, n: nat, i: nat)
    requires i < n
    ensures Orbit(m, n, i, 0) == m + i
  {
    ModUnique(m + i, 0, m + i, m + n);
  }

  lemma OrbitNext(m: nat, n: nat, i: nat, t: nat)
    requires m > 0 && n > 0
    ensures Orbit(m, n, i, t + 1) == Next(m, n, Orbit(m, n, i, t))
  {
    var l := m + n;
    var a := m + i + t * n;
    var p, q := a % l, a / l;
    DivMod(a, l);
    Distrib(t, 1, n);
    Distrib(q, 1, l);
    if p >= m {
      ModUnique(a + n, q + 1, p - m, l);
    } else {
      ModUnique(a + n, q, p + n, l);
    }
  }

  /** Everything the exchange of blocks of m and n entries needs to know about
      its gcd g and cycle length c: m = j * g, n = k * g, and c = j + k. */
  ghost predicate Shape(m: nat, n: nat, g: nat, c: nat) {
    && m > 0 && n > 0 && g > 0
    && g == Euclid(m, n)
    && m == (m / g) * g
    && n == (n / g) * g
    && c == m / g + n / g
    && 0 < m / g && 0 < n / g
  }

  lemma ShapeHolds(m: nat, n: nat)
    requires m > 0 && n > 0
    ensures Euclid(m, n) > 0 && Shape(m, n, Euclid(m, n), (m + n) / Euclid(m, n))
    ensures Euclid(m, n) <= n
  {
    var g := Euclid(m, n);
    GcdIsGreatest(m, n);
    EuclidDivides(m, n);
    var j, k := m / g, n / g;
    DivMod(m, g);
    DivMod(n, g);
    DividesAtMost(g, n);
    Distrib(j, k, g);
    IsMultiple(g, j + k, m + n);
  }

  lemma ShapeTotal(m: nat, n: nat, g: nat, c: nat)
    requires Shape(m, n, g, c)
    ensures m + n == c * g
  {
    Distrib(m / g, n / g, g);
  }

  /** The cycle closes after c steps. */
  lemma OrbitCloses(m: nat, n: nat, g: nat, c: nat, i: nat)
    requires Shape(m, n, g, c) && i < n
    ensures Orbit(m, n, i, c) == Orbit(m, n, i, 0)
  {
    var l, k := m + n, n / g;
    ShapeTotal(m, n, g, c);
    assert c * n == k * l by {
      assert c * n == c * (k * g);
      Assoc(c, k, g);
      Assoc(k, c, g);
      assert c * k == k * c;
    }
    ModUnique(m + i + c * n, k, m + i, l);
    OrbitStart(m, n, i);
  }

  /** A multiple u * n that is congruent to g modulo m + n. */
  lemma GcdMultiple(m: nat, n: nat) returns (u: int, q: int)
    ensures u * n == Euclid(m, n) + q * (m + n)
  {
    var x, y := EuclidBezout(m, n);
    u, q := y - x, -x;
    Distrib(y, x, n);
    Distrib(m, n, -x);
  }

  lemma DistinctArithmetic(l: nat, n: nat, g: nat, c: nat, d: int, k: int, u: int, q: int)
    requires g > 0 && c > 0 && l == c * g
    requires d * n == k * l
    requires u * n == g + q * l
    ensures d == (u * k - d * q) * c
  {
    var w := u * k - d * q;
    calc {
      d * g;
      { Distrib(u * n, q * l, d); }
      d * (u * n) - d * (q * l);
      { Assoc(d, u, n); Assoc(u, d, n); assert d * u == u * d; }
      u * (d * n) - d * (q * l);
      { Assoc(u, k, l); Assoc(d, q, l); }
      (u * k) * l - (d * q) * l;
      { Distrib(u * k, d * q, l); }
      w * l;
      { Assoc(w, c, g); }
      (w * c) * g;
    }
    Distrib(d, w * c, g);
    SmallMultiple(d - w * c, g);
  }

  lemma EqualRemainders(a: nat, b: nat, l: nat)
    requires l > 0 && a % l == b % l
    ensures b - a == (b / l - a / l) * l
  {
    DivMod(a, l);
    DivMod(b, l);
    Distrib(b / l, a / l, l);
  }

  /** The cycle meets no position twice. */
  lemma OrbitDistinct(m: nat, n: nat, g: nat, c: nat, i: nat, s: nat, t: nat)
    requires Shape(m, n, g, c)
    requires s < t < c
    ensures Orbit(m, n, i, s) != Orbit(m, n, i, t)
  {
    if Orbit(m, n, i, s) == Orbit(m, n, i, t) {
      var l, d := m + n, t - s;
      EqualRemainders(m + i + s * n, m + i + t * n, l);
      Distrib(t, s, n);
      ShapeTotal(m, n, g, c);
      var u, q := GcdMultiple(m, n);
      var k := (m + i + t * n) / l - (m + i + s * n) / l;
      DistinctArithmetic(l, n, g, c, d, k, u, q);
      MultipleSize(d, u * k - d * q, c);
    }
  }

  lemma MultipleSize(d: int, w: int, c: nat)
    requires d == w * c && d > 0
    ensures c <= d
  {
    if d < c { SmallMultiple(w, c); }
  }

  /** The cycle stays inside its residue class ... */
  lemma OrbitClass(m: nat, n: nat, g: nat, c: nat, i: nat, t: nat)
    requires Shape(m, n, g, c) && i < g
    ensures Orbit(m, n, i, t) % g == i
  {
    var l := m + n;
    var a := m + i + t * n;
    var p, q := a % l, a / l;
    DivMod(a, l);
    ShapeTotal(m, n, g, c);
    var j, k := m / g, n / g;
    var w := j + t * k - q * c;
    assert p == w * g + i by {
      Assoc(t, k, g);
      Assoc(q, c, g);
      Distrib(j + t * k, q * c, g);
      Distrib(j, t * k, g);
      assert l * q == q * l;
    }
    ModUnique(p, w, i, g);
  }

  lemma CoverArithmetic(l: nat, m: nat, n: nat, g: nat, c: nat, i: nat, p: int,
                        k: nat, h: int, u: int, q: int, e: int, t: int)
    requires l == c * g && n == k * g
    requires p - m - i == h * g
    requires u * n == g + q * l
    requires u * h == c * e + t
    ensures m + i + t * n == (q * h - e * k) * l + p
  {
    calc {
      t * n;
      { Distrib(u * h, c * e, n); }
      (u * h) * n - (c * e) * n;
      { Assoc(u, h, n); Assoc(u, n, h); assert h * n == n * h; }
      (u * n) * h - (c * e) * n;
      { Distrib(g, q * l, h); }
      g * h + (q * l) * h - (c * e) * n;
      { Assoc(q, l, h); Assoc(q, h, l); assert l * h == h * l; }
      g * h + (q * h) * l - (c * e) * n;
      { ThreeFactors(c, e, k, g); }
      g * h + (q * h) * l - (e * k) * l;
      { Distrib(q * h, e * k, l); }
      g * h + (q * h - e * k) * l;
    }
  }

  lemma ThreeFactors(c: int, e: int, k: int, g: int)
    ensures (c * e) * (k * g) == (e * k) * (c * g)
  {
    Assoc(c * e, k, g);
    Assoc(e * k, c, g);
    Assoc(c, e, k);
    assert (e * k) * c == c * (e * k);
  }

  /** ... and reaches every position of it. */
  lemma OrbitCovers(m: nat, n: nat, g: nat, c: nat, i: nat, p: nat) returns (t: nat)
    requires Shape(m, n, g, c) && i < g
    requires p < m + n && p % g == i
    ensures t < c && Orbit(m, n, i, t) == p
  {
    var l := m + n;
    var h := p / g - m / g;
    DivMod(p, g);
    Distrib(p / g, m / g, g);
    ShapeTotal(m, n, g, c);
    var u, q := GcdMultiple(m, n);
    t := (u * h) % c;
    var e := (u * h) / c;
    DivMod(u * h, c);
    CoverArithmetic(l, m, n, g, c, i, p, n / g, h, u, q, e, t);
    ModUnique(m + i + t * n, q * h - e * (n / g), p, l);
  }

  // ---------- the exchange ----------

  /** The vector v with its blocks [s, e) and [e, o) exchanged, each keeping its order. */
  function Exchange<T>(v: seq<T>, s: nat, e: nat, o: nat): (r: seq<T>)
    requires s <= e <= o <= |v|
    ensures |r| == |v|
  {
    v[..s] + v[e..o] + v[s..e] + v[o..]
  }

  /** Every entry of a region of m + n entries has moved from region v to region r. */
  ghost predicate AllMoved<T>(v: seq<T>, r: seq<T>, m: nat, n: nat) {
    |v| == |r| == m + n && forall p: nat {:trigger Next(m, n, p)} :: p < m + n ==> r[Next(m, n, p)] == v[p]
  }

  /** Position-wise reading of Exchange. */
  lemma ExchangeAt<T>(v: seq<T>, r: seq<T>, s: nat, e: nat, o: nat, m: nat, n: nat)
    requires s < e < o <= |v| == |r| && m == e - s && n == o - e
    requires r[..s] == v[..s] && r[o..] == v[o..]
    requires AllMoved(v[s..o], r[s..o], m, n)
    ensures r == Exchange(v, s, e, o)
  {
    var b := r[s..o];
    forall k | 0 <= k < n ensures b[k] == v[e..o][k] {
      assert Next(m, n, k + m) == k;
    }
    forall k | 0 <= k < m ensures b[n + k] == v[s..e][k] {
      assert Next(m, n, k) == n + k;
    }
    assert b == v[e..o] + v[s..e];
    assert r == r[..s] + b + r[o..];
  }

  lemma NextClass(m: nat, n: nat, g: nat, c: nat, p: nat)
    requires Shape(m, n, g, c) && p < m + n
    ensures Next(m, n, p) % g == p % g
  {
    var j, k, q := m / g, n / g, p / g;
    DivMod(p, g);
    if p >= m {
      Distrib(q, j, g);
      ModUnique(p - m, q - j, p % g, g);
    } else {
      Distrib(q, k, g);
      ModUnique(p + n, q + k, p % g, g);
    }
  }

  /** The positions a cycle runs through, start and return included. */
  ghost predicate IsCycle(m: nat, n: nat, c: nat, path: seq<nat>) {
    && 0 < c && |path| == c + 1
    && path[0] == path[c]
    && (forall t {:trigger path[t]} :: 0 <= t <= c ==> path[t] < m + n)
    && (forall t {:trigger Next(m, n, path[t])} :: 0 <= t < c ==> Next(m, n, path[t]) == path[t + 1])
    && (forall t, u {:trigger path[t], path[u]} :: 0 <= t < u < c ==> path[t] != path[u])
  }

  ghost predicate Within(c: nat, path: seq<nat>, cells: set<nat>) {
    |path| == c + 1 && forall t {:trigger path[t]} :: 0 <= t <= c ==> path[t] in cells
  }

  lemma PathIsClass(m: nat, n: nat, g: nat, c: nat, i: nat, path: seq<nat>)
    requires Shape(m, n, g, c) && i < g && |path| == c + 1
    requires forall t :: 0 <= t <= c ==> path[t] == Orbit(m, n, i, t)
    ensures forall p: nat :: p in path <==> p < m + n && p % g == i
  {
    forall p: nat ensures p in path <==> p < m + n && p % g == i {
      if p in path {
        var t :| 0 <= t <= c && path[t] == p;
        OrbitClass(m, n, g, c, i, t);
      }
      if p < m + n && p % g == i {
        var t := OrbitCovers(m, n, g, c, i, p);
        assert path[t] == p;
      }
    }
  }

  /** Residue class i modulo the gcd is one cycle of length c through m + i. */
  lemma CycleOfClass(m: nat, n: nat, g: nat, c: nat, i: nat)
    returns (path: seq<nat>, cells: set<nat>)
    requires Shape(m, n, g, c) && i < g <= n
    ensures IsCycle(m, n, c, path) && path[0] == m + i
    ensures Within(c, path, cells)
    ensures forall p: nat :: p in path <==> p < m + n && p % g == i
    ensures forall p: nat :: p in cells <==> p < m + n && p % g == i
  {
    cells := set p: nat | p < m + n && p % g == i;
    path := seq(c + 1, t requires 0 <= t => Orbit(m, n, i, t));
    OrbitStart(m, n, i);
    OrbitCloses(m, n, g, c, i);
    forall t {:trigger Next(m, n, path[t])} | 0 <= t < c ensures Next(m, n, path[t]) == path[t + 1] {
      OrbitNext(m, n, i, t);
    }
    forall t, u | 0 <= t < u < c ensures path[t] != path[u] {
      OrbitDistinct(m, n, g, c, i, t, u);
    }
    PathIsClass(m, n, g, c, i, path);
    forall t {:trigger path[t]} | 0 <= t <= c ensures path[t] in cells {
      assert path[t] in path;
    }
  }

  /** The block region after j steps of a cycle: the first j entries of the
      cycle have moved on, the start holds the entry to move next, and the
      cells off the cycle are untouched. */
  ghost predicate Partway<T>(orig: seq<T>, cur: seq<T>, c: nat, path: seq<nat>, cells: set<nat>, j: nat)
    requires 0 < c && |path| == c + 1 && j <= c
    requires forall t :: 0 <= t <= c ==> path[t] < |orig|
  {
    && |cur| == |orig|
    && (forall t {:trigger cur[path[t]]} :: 0 < t <= j && t < c ==> cur[path[t]] == orig[path[t - 1]])
    && cur[path[0]] == orig[path[if j < c then j else c - 1]]
    && (forall t {:trigger cur[path[t]]} :: j < t < c ==> cur[path[t]] == orig[path[t]])
    && (forall k {:trigger cur[k]} :: 0 <= k < |cur| && k !in cells ==> cur[k] == orig[k])
  }

  /** The vector v with entries p and q exchanged. */
  function Swapped<T>(v: seq<T>, p: nat, q: nat): (w: seq<T>)
    requires p < |v| && q < |v|
    ensures |w| == |v|
  {
    v[p := v[q]][q := v[p]]
  }

  lemma CycleStep<T>(orig: seq<T>, cur: seq<T>, next: seq<T>, m: nat, n: nat, c: nat, path: seq<nat>, cells: set<nat>,
                     j: nat)
    requires IsCycle(m, n, c, path) && j < c && |orig| == m + n
    requires Within(c, path, cells)
    requires Partway(orig, cur, c, path, cells, j)
    requires next == Swapped(cur, path[j + 1], path[0])
    ensures Partway(orig, next, c, path, cells, j + 1)
  {
    if j + 1 < c { assert path[0] != path[j + 1]; }
    forall t {:trigger next[path[t]]} | 0 < t < c
      ensures next[path[t]] == if t <= j + 1 then orig[path[t - 1]] else orig[path[t]]
    {
      assert path[0] != path[t];
      assert t != j + 1 && j + 1 < c ==> path[t] != path[j + 1];
      assert t <= j ==> cur[path[t]] == orig[path[t - 1]];
    }
  }

  lemma CycleDone<T>(orig: seq<T>, cur: seq<T>, m: nat, n: nat, c: nat, path: seq<nat>, cells: set<nat>, p: nat)
    requires IsCycle(m, n, c, path) && |orig| == m + n
    requires Partway(orig, cur, c, path, cells, c)
    requires p in path
    ensures cur[Next(m, n, p)] == orig[p]
  {
    var t :| 0 <= t <= c && path[t] == p;
    var u := if t < c then t else 0;
    assert path[u] == p && Next(m, n, path[u]) == path[u + 1];
    if u + 1 < c { assert cur[path[u + 1]] == orig[path[u + 1 - 1]]; }
  }

  method Swap<T>(a: array<T>, p: nat, q: nat)
    requires p < a.Length && q < a.Length
    modifies a
    ensures a[..] == Swapped(old(a[..]), p, q)
  {
    var swap := a[p];
    a[p] := a[q];
    a[q] := swap;
  }

  lemma SwappedRegion<T>(v: seq<T>, w: seq<T>, s: nat, o: nat, p: nat, q: nat)
    requires s <= o <= |v| && p < o - s && q < o - s
    requires w == Swapped(v, s + p, s + q)
    ensures w[s..o] == Swapped(v[s..o], p, q)
    ensures w[..s] == v[..s] && w[o..] == v[o..]
  {}

  /** Partway for the block region [s, o) of a whole vector; the rest is untouched. */
  ghost predicate RegionPartway<T>(orig: seq<T>, v: seq<T>, s: nat, o: nat, m: nat, n: nat,
                                   c: nat, path: seq<nat>, cells: set<nat>, j: nat)
  {
    && s + m + n == o <= |orig| == |v|
    && IsCycle(m, n, c, path) && j <= c
    && Within(c, path, cells)
    && Partway(orig[s..o], v[s..o], c, path, cells, j)
    && v[..s] == orig[..s] && v[o..] == orig[o..]
  }

  lemma RegionStart<T>(orig: seq<T>, s: nat, o: nat, m: nat, n: nat, c: nat, path: seq<nat>, cells: set<nat>)
    requires s + m + n == o <= |orig| && IsCycle(m, n, c, path)
    requires Within(c, path, cells)
    ensures RegionPartway(orig, orig, s, o, m, n, c, path, cells, 0)
  {}

  lemma RegionStep<T>(orig: seq<T>, v: seq<T>, w: seq<T>, s: nat, o: nat, m: nat, n: nat,
                      c: nat, path: seq<nat>, cells: set<nat>, j: nat, p: nat, q: nat)
    requires RegionPartway(orig, v, s, o, m, n, c, path, cells, j) && j < c
    requires p == s + path[j + 1] && q == s + path[0] && p < |v| && q < |v|
    requires w == Swapped(v, p, q)
    ensures RegionPartway(orig, w, s, o, m, n, c, path, cells, j + 1)
  {
    SwappedRegion(v, w, s, o, path[j + 1], path[0]);
    CycleStep(orig[s..o], v[s..o], w[s..o], m, n, c, path, cells, j);
  }

  lemma CycleNext(m: nat, n: nat, c: nat, path: seq<nat>, j: nat)
    requires IsCycle(m, n, c, path) && j < c
    ensures path[j + 1] < m + n
    ensures path[j + 1] == if path[j] >= m then path[j] - m else path[j] + n
  {
    assert Next(m, n, path[j]) == path[j + 1];
  }

  /** One cycle of permute_args: each entry on the cycle moves one step along it
      and nothing else moves. */
  method RunCycle<T>(a: array<T>, s: nat, e: nat, o: nat, c: nat, i: nat, ghost path: seq<nat>, ghost cells: set<nat>)
    requires s < e < o <= a.Length && 0 < c && |path| == c + 1
    requires RegionPartway(a[..], a[..], s, o, e - s, o - e, c, path, cells, 0)
    requires path[0] == e - s + i && e + i < o
    modifies a
    ensures RegionPartway(old(a[..]), a[..], s, o, e - s, o - e, c, path, cells, c)
  {
    var nnonopts, nopts := e - s, o - e;
    var cstart := e + i;
    var pos := cstart;
    ghost var orig := a[..];
    for j := 0 to c
      invariant pos == s + path[j] && pos < o
      invariant RegionPartway(orig, a[..], s, o, nnonopts, nopts, c, path, cells, j)
    {
      CycleNext(nnonopts, nopts, c, path, j);
      ghost var v := a[..];
      if pos >= e {
        pos := pos - nnonopts;
      } else {
        pos := pos + nopts;
      }
      Swap(a, pos, cstart);
      RegionStep(orig, v, a[..], s, o, nnonopts, nopts, c, path, cells, j, pos, cstart);
    }
  }

  /** Which entries have reached their place once the first i residue classes are done. */
  ghost predicate ClassesDone<T>(orig: seq<T>, cur: seq<T>, m: nat, n: nat, g: nat, i: nat)
    requires g > 0 && |orig| == m + n
  {
    && |cur| == |orig|
    && (forall p: nat {:trigger Next(m, n, p)} :: p < m + n && p % g < i ==> cur[Next(m, n, p)] == orig[p])
    && (forall p: nat {:trigger cur[p]} :: p < m + n && p % g >= i ==> cur[p] == orig[p])
  }

  lemma ClassDone<T>(orig: seq<T>, before: seq<T>, after: seq<T>, m: nat, n: nat, g: nat, c: nat, i: nat,
                     path: seq<nat>, cells: set<nat>)
    requires Shape(m, n, g, c) && |orig| == m + n && i < g
    requires IsCycle(m, n, c, path)
    requires forall p: nat :: p in path <==> p < m + n && p % g == i
    requires forall p: nat :: p in cells <==> p < m + n && p % g == i
    requires ClassesDone(orig, before, m, n, g, i)
    requires Partway(before, after, c, path, cells, c)
    ensures ClassesDone(orig, after, m, n, g, i + 1)
  {
    forall p: nat {:trigger Next(m, n, p)} | p < m + n && p % g < i + 1
      ensures after[Next(m, n, p)] == orig[p]
    {
      NextClass(m, n, g, c, p);
      if p % g == i {
        CycleDone(before, after, m, n, c, path, cells, p);
        assert before[p] == orig[p];
      } else {
        assert before[Next(m, n, p)] == orig[p];
        assert Next(m, n, p) !in cells;
      }
    }
  }

  /** permute_args: exchange the non-option block [s, e) with the option block [e, o). */
  method PermuteArgs<T>(s: nat, e: nat, o: nat, a: array<T>)
    requires s < e < o <= a.Length
    modifies a
    ensures a[..] == Exchange(old(a[..]), s, e, o)
  {
    var nnonopts, nopts := e - s, o - e;
    var ncycle := Gcd(nnonopts, nopts);
    ShapeHolds(nnonopts, nopts);
    var cyclelen := (o - s) / ncycle;
    ghost var orig := a[..];
    for i := 0 to ncycle
      invariant ClassesDone(orig[s..o], a[..][s..o], nnonopts, nopts, ncycle, i)
      invariant a[..][..s] == orig[..s] && a[..][o..] == orig[o..]
    {
      ghost var before := a[..];
      ghost var path, cells := CycleOfClass(nnonopts, nopts, ncycle, cyclelen, i);
      RegionStart(before, s, o, nnonopts, nopts, cyclelen, path, cells);
      RunCycle(a, s, e, o, cyclelen, i, path, cells);
      ClassDone(orig[s..o], before[s..o], a[..][s..o], nnonopts, nopts, ncycle, cyclelen, i, path, cells);
    }
    AllClassesDone(orig, a[..], s, e, o, ncycle);
  }

  lemma AllClassesDone<T>(orig: seq<T>, done: seq<T>, s: nat, e: nat, o: nat, g: nat)
    requires s < e < o <= |orig| == |done| && g > 0
    requires ClassesDone(orig[s..o], done[s..o], e - s, o - e, g, g)
    requires done[..s] == orig[..s] && done[o..] == orig[o..]
    ensures done == Exchange(orig, s, e, o)
  {
    var m, n := e - s, o - e;
    forall p: nat {:trigger Next(m, n, p)} | p < m + n ensures done[s..o][Next(m, n, p)] == orig[s..o][p] {
      assert p % g < g;
    }
    ExchangeAt(orig, done, s, e, o, m, n);
  }
}
