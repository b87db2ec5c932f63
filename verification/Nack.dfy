/** Packing lost packets into NACK pairs: what comes back, and how few pairs it takes. */
module Nack {
  import opened Basics
  import opened NackFormat

  // ----- round trip -----

  predicate Ascending(s: seq<uint16>) {
    forall i, j :: 0 <= i < j < |s| ==> s[i] < s[j]
  }

  predicate NonDescending(s: seq<uint16>) {
    forall i, j :: 0 <= i < j < |s| ==> s[i] <= s[j]
  }

  /** A sorted list without its repetitions. */
  function Distinct(s: seq<uint16>): seq<nat> {
    if s == [] then []
    else
      var l := |s| - 1;
      Distinct(s[..l]) + if l > 0 && s[l - 1] == s[l] then [] else [s[l] as nat]
  }

  lemma {:induction false} DistinctAscending(s: seq<uint16>)
    requires Ascending(s)
    ensures Distinct(s) == s
    decreases |s|
  {
    if s != [] {
      var l := |s| - 1;
      DistinctAscending(s[..l]);
      assert s == s[..l] + [s[l]];
    }
  }

  lemma {:induction false} MarkedSame(p: Pair, q: Pair, n: nat)
    requires p.pid == q.pid && forall j :: 0 <= j < n ==> (Bit(p.blp, j) <==> Bit(q.blp, j))
    ensures Marked(p, n) == Marked(q, n)
    decreases n
  {
    hide Bit;
    if n > 0 {
      MarkedSame(p, q, n - 1);
    }
  }

  lemma {:induction false} MarkedStops(p: Pair, k: nat, n: nat)
    requires k <= n && forall j :: k <= j < n ==> !Bit(p.blp, j)
    ensures Marked(p, n) == Marked(p, k)
    decreases n
  {
    hide Bit;
    if n > k {
      MarkedStops(p, k, n - 1);
    }
  }

  /** Marking a packet beyond all marked ones adds it at the end. */
  lemma {:induction false} MarkedNext(p: Pair, k: nat)
    requires k < 16 && p.blp < Pow2(k) && p.blp + Pow2(k) < 0x1_0000
    ensures Marked(Pair(p.pid, p.blp + Pow2(k)), 16) == Marked(p, 16) + [p.pid + k + 1]
    ensures p.blp + Pow2(k) < Pow2(k + 1)
  {
    hide Bit;
    var q := Pair(p.pid, p.blp + Pow2(k));
    forall j | 0 <= j < k ensures Bit(p.blp, j) <==> Bit(q.blp, j) {
      LowBits(p.blp, k, j);
    }
    forall j | k <= j < 16 ensures !Bit(p.blp, j) {
      NoHighBits(p.blp, k, j);
    }
    forall j | k + 1 <= j < 16 ensures !Bit(q.blp, j) {
      NoHighBits(q.blp, k + 1, j);
    }
    HighBits(p.blp, k);
    MarkedSame(p, q, k);
    MarkedStops(p, k, 16);
    MarkedStops(q, k + 1, 16);
  }

  lemma {:induction false} MarkedNothing(pid: uint16)
    ensures Members(Pair(pid, 0)) == [pid as nat]
  {
    hide Bit;
    forall j | 0 <= j < 16 ensures !Bit(0, j) {
      NoHighBits(0, 0, j);
    }
    MarkedStops(Pair(pid, 0), 0, 16);
  }

  /** The last pair reaches exactly to the last packet added. */
  predicate Reaches(p: Pair, last: uint16) {
    && p.pid <= last <= p.pid + 16 && p.blp < Pow2(last - p.pid)
    && (last > p.pid ==> Bit(p.blp, last - p.pid - 1))
  }

  lemma {:induction false} AddNext(pairs: seq<Pair>, last: uint16, npid: uint16)
    requires pairs != [] && Reaches(pairs[|pairs| - 1], last) && last <= npid
    ensures var r := Add(pairs, npid);
            && Reaches(r[|r| - 1], npid)
            && Unpacked(r) == Unpacked(pairs) + if npid == last then [] else [npid as nat]
  {
    hide Marked, Bit;
    var l := |pairs| - 1;
    var p := pairs[l];
    var r := Add(pairs, npid);
    if npid == last {
      assert pairs == pairs[..l] + [p];
    } else if npid - p.pid > 16 {
      MarkedNothing(npid);
      UnpackedSnoc(pairs, Pair(npid, 0));
    } else {
      var k := npid - p.pid - 1;
      Pow2Mono(last - p.pid, k);
      HighBits(p.blp, k);
      OrFits(p.blp, k);
      MarkedNext(p, k);
      var q := Pair(p.pid, p.blp + Pow2(k));
      UnpackedSnoc(pairs[..l], p);
      UnpackedSnoc(pairs[..l], q);
      assert pairs == pairs[..l] + [p];
      assert Unpacked(pairs[..l]) + Members(q) == Unpacked(pairs[..l]) + Members(p) + [npid as nat];
    }
  }

  lemma {:induction false} UnpackedSnoc(pairs: seq<Pair>, p: Pair)
    ensures Unpacked(pairs + [p]) == Unpacked(pairs) + Members(p)
  {
    assert (pairs + [p])[..|pairs|] == pairs;
  }

  lemma {:induction false} PackedUnpacked(s: seq<uint16>)
    requires NonDescending(s)
    ensures Unpacked(Packed(s)) == Distinct(s)
    ensures s != [] ==> Reaches(Packed(s)[|Packed(s)| - 1], s[|s| - 1])
    decreases |s|
  {
    if s != [] {
      var l := |s| - 1;
      PackedUnpacked(s[..l]);
      hide Unpacked, Reaches, Add, Members;
      if l == 0 {
        FirstPair(s[0]);
        assert s[..0] == [];
      } else {
        AddNext(Packed(s[..l]), s[l - 1], s[l]);
      }
    }
  }

  lemma {:induction false} FirstPair(pid: uint16)
    ensures var r := Add([], pid); Reaches(r[|r| - 1], pid) && Unpacked(r) == [pid as nat] && Unpacked([]) == []
  {
    MarkedNothing(pid);
    hide Members;
    assert [Pair(pid, 0)] == [] + [Pair(pid, 0)];
    UnpackedSnoc([], Pair(pid, 0));
  }

  // ----- bytes -----

  lemma {:induction false} PairBack(b: seq<byte>, e: nat, p: Pair)
    requires e + 4 <= |b| && b[e..e + 4] == PairBytes(p)
    ensures Be16(b, e) == p.pid && Be16(b, e + 2) == p.blp
  {
    SliceOfSlice(b, e, e + 4, 0, 2);
    SliceOfSlice(b, e, e + 4, 2, 4);
    assert PairBytes(p)[0..2] == Bytes16(p.pid) && PairBytes(p)[2..4] == Bytes16(p.blp);
    Be16Inverts(p.pid, b, e);
    Be16Inverts(p.blp, b, e + 2);
  }

  lemma {:induction false} PairsBack(b: seq<byte>, at: nat, pairs: seq<Pair>)
    requires at + 4 * |pairs| <= |b| && b[at..at + 4 * |pairs|] == AllBytes(pairs)
    ensures PairsAt(b, at, |pairs|) == pairs
    decreases |pairs|
  {
    hide Be16, PairBytes;
    if pairs != [] {
      var l := |pairs| - 1;
      var w := AllBytes(pairs);
      SliceOfSlice(b, at, at + 4 * |pairs|, 0, 4 * l);
      SliceOfSlice(b, at, at + 4 * |pairs|, 4 * l, 4 * l + 4);
      assert w[0..4 * l] == AllBytes(pairs[..l]) && w[4 * l..4 * l + 4] == PairBytes(pairs[l]);
      PairsBack(b, at, pairs[..l]);
      PairBack(b, at + 4 * l, pairs[l]);
      assert pairs == pairs[..l] + [pairs[l]];
    }
  }

  lemma {:induction false} MessageDecodes(pairs: seq<Pair>)
    requires 0 < |pairs| < 0xFFFE
    ensures Decode(Message(pairs)) == Unpacked(pairs)
  {
    hide Be16, Bytes16, Unpacked, PairsAt, AllBytes;
    var b := Message(pairs);
    assert b[2..4] == Bytes16(2 + |pairs|);
    Be16Inverts(2 + |pairs|, b, 2);
    assert b[12..12 + 4 * |pairs|] == AllBytes(pairs);
    PairsBack(b, 12, pairs);
    assert b[0] == 0x81 && b[1] == 205;
  }

  // ----- how many pairs -----

  /** One pair can stand for its packet id and the 16 numbers after it. */
  predicate InSpan(w: int, x: int) {
    w <= x <= w + 16
  }

  predicate Hit(ws: set<int>, x: int) {
    exists w :: w in ws && InSpan(w, x)
  }

  predicate Covers(ws: set<int>, s: seq<uint16>) {
    forall x :: x in s ==> Hit(ws, x)
  }

  predicate Apart(ps: seq<int>) {
    forall i, j :: 0 <= i < j < |ps| ==> ps[j] - ps[i] > 16
  }

  function Pids(pairs: seq<Pair>): (r: seq<int>)
    ensures |r| == |pairs| && forall i :: 0 <= i < |r| ==> r[i] == pairs[i].pid
  {
    seq(|pairs|, i requires 0 <= i < |pairs| => pairs[i].pid as int)
  }

  predicate Started(ps: seq<int>, x: int) {
    exists i :: 0 <= i < |ps| && InSpan(ps[i], x)
  }

  /** A packet that the last pair reaches adds no pair; any other one adds its own. */
  lemma {:induction false} PidsStep(pairs: seq<Pair>, x: uint16)
    requires pairs != [] ==> pairs[|pairs| - 1].pid < x
    ensures var ps := Pids(pairs);
            if pairs != [] && InSpan(ps[|ps| - 1], x) then Pids(Add(pairs, x)) == ps
            else Pids(Add(pairs, x)) == ps + [x as int]
  {
    hide Or;
    var ps, qs := Pids(pairs), Pids(Add(pairs, x));
    assert forall i :: 0 <= i < |ps| ==> qs[i] == ps[i];
  }

  /** The packet ids of the pairs are listed packets, more than 16 apart, and reach every listed packet. */
  lemma {:induction false} PackedApart(s: seq<uint16>)
    requires Ascending(s)
    ensures var ps := Pids(Packed(s));
            && Apart(ps) && (forall p :: p in ps ==> exists k :: 0 <= k < |s| && s[k] == p)
            && (forall x :: x in s ==> Started(ps, x))
            && (s != [] ==> ps[|ps| - 1] <= s[|s| - 1])
    decreases |s|
  {
    if s != [] {
      var l := |s| - 1;
      var init, x := s[..l], s[l];
      PackedApart(init);
      assert l > 0 ==> s[l - 1] < x;
      hide Packed, Add;
      PackedSnoc(s);
      PidsStep(Packed(init), x);
      var qs, ps := Pids(Packed(init)), Pids(Packed(s));
      forall p | p in ps ensures exists k :: 0 <= k < |s| && s[k] == p {
        if p in qs {
          var k :| 0 <= k < l && init[k] == p;
          assert s[k] == p;
        } else {
          assert s[l] == p;
        }
      }
      forall y | y in s ensures Started(ps, y) {
        if y in init {
          var i :| 0 <= i < |qs| && InSpan(qs[i], y);
          assert ps[i] == qs[i];
        } else {
          assert InSpan(ps[|ps| - 1], y);
        }
      }
    }
  }

  lemma {:induction false} PackedSnoc(s: seq<uint16>)
    requires s != []
    ensures Packed(s) == Add(Packed(s[..|s| - 1]), s[|s| - 1])
  {
  }

  /** Numbers more than 16 apart need a window each. */
  lemma {:induction false} WindowEach(ws: set<int>, ps: seq<int>)
    requires Apart(ps) && forall p :: p in ps ==> Hit(ws, p)
    ensures |ws| >= |ps|
    decreases |ps|
  {
    if ps != [] {
      var l := |ps| - 1;
      assert ps[l] in ps;
      var w :| w in ws && InSpan(w, ps[l]);
      var rest := ws - {w};
      forall p | p in ps[..l] ensures Hit(rest, p) {
        assert p in ps;
        var v :| v in ws && InSpan(v, p);
        assert v in rest;
      }
      WindowEach(rest, ps[..l]);
    }
  }

  /** No set of windows covers the list with fewer pairs. */
  lemma {:induction false} Optimal(s: seq<uint16>, ws: set<int>)
    requires Ascending(s) && Covers(ws, s)
    ensures |ws| >= |Packed(s)|
  {
    hide Packed;
    PackedApart(s);
    var ps := Pids(Packed(s));
    forall p | p in ps ensures Hit(ws, p) {
      var k :| 0 <= k < |s| && s[k] == p;
      assert s[k] in s;
    }
    WindowEach(ws, ps);
  }

  // ----- windows that wrap around -----

  /** Section 6.2.1 counts modulo 2^16. */
  predicate InWindow(w: uint16, x: uint16) {
    (x - w) % 0x1_0000 <= 16
  }

  predicate HitModulo(ws: set<uint16>, x: uint16) {
    exists w :: w in ws && InWindow(w, x)
  }

  predicate CoversModulo(ws: set<uint16>, s: seq<uint16>) {
    forall x :: x in s ==> HitModulo(ws, x)
  }

  const WRAPS := 0x1_0000 - 16

  /** What one window leaves over. */
  function Outside(s: seq<uint16>, w: uint16): (r: seq<uint16>)
    ensures forall x :: x in r <==> x in s && !InWindow(w, x)
  {
    if s == [] then [] else Outside(s[..|s| - 1], w) + if InWindow(w, s[|s| - 1]) then [] else [s[|s| - 1]]
  }

  lemma {:induction false} OutsideAscending(s: seq<uint16>, w: uint16)
    requires Ascending(s)
    ensures Ascending(Outside(s, w))
    decreases |s|
  {
    if s != [] {
      var l := |s| - 1;
      OutsideAscending(s[..l], w);
      forall i | 0 <= i < |Outside(s[..l], w)| ensures Outside(s[..l], w)[i] < s[l] {
        var x := Outside(s[..l], w)[i];
        assert x in s[..l];
      }
    }
  }

  /** With one wrapping window, the packer on the rest tells how few pairs are enough. */
  lemma {:induction false} WrapCovers(s: seq<uint16>, w: uint16) returns (ws: set<uint16>)
    requires Ascending(s)
    ensures CoversModulo(ws, s) && |ws| <= 1 + |Packed(Outside(s, w))|
  {
    hide Packed;
    var rest := Outside(s, w);
    OutsideAscending(s, w);
    PackedApart(rest);
    var pairs := Packed(rest);
    var pids := PidSet(pairs);
    ws := {w} + pids;
    forall x | x in s ensures HitModulo(ws, x) {
      if InWindow(w, x) {
        assert w in ws;
      } else {
        assert x in rest;
        var j :| 0 <= j < |Pids(pairs)| && InSpan(Pids(pairs)[j], x);
        assert pairs[j].pid in ws && InWindow(pairs[j].pid, x);
      }
    }
  }

  lemma {:induction false} PidSet(pairs: seq<Pair>) returns (ws: set<uint16>)
    ensures |ws| <= |pairs| && forall i :: 0 <= i < |pairs| ==> pairs[i].pid in ws
    decreases |pairs|
  {
    if pairs == [] {
      ws := {};
    } else {
      var l := |pairs| - 1;
      var init := PidSet(pairs[..l]);
      ws := init + {pairs[l].pid};
      forall i | 0 <= i < |pairs| ensures pairs[i].pid in ws {
        assert i < l ==> pairs[..l][i] == pairs[i];
      }
    }
  }

  /** The window that wraps furthest does the wrapping for all of them. */
  lemma {:induction false} FurthestWrap(ws: set<uint16>) returns (w: uint16)
    requires exists v :: v in ws && v >= WRAPS
    ensures w in ws && w >= WRAPS && forall v :: v in ws ==> v <= w
    decreases |ws|
  {
    var v :| v in ws && v >= WRAPS;
    var above := set u | u in ws && u > v;
    if above == {} {
      w := v;
      forall u | u in ws ensures u <= w {
        assert u > v ==> u in above;
      }
    } else {
      assert v !in above && above <= ws;
      Smaller(above, ws, v);
      w := FurthestWrap(above);
      forall u | u in ws ensures u <= w {
        assert u > v ==> u in above;
      }
    }
  }

  lemma {:induction false} Smaller(a: set<uint16>, b: set<uint16>, x: uint16)
    requires a <= b && x in b && x !in a
    ensures |a| < |b|
  {
    assert a <= b - {x};
    Subset(a, b - {x});
  }

  lemma {:induction false} Subset<T>(a: set<T>, b: set<T>)
    requires a <= b
    ensures |a| <= |b|
    decreases |a|
  {
    if a != {} {
      var x :| x in a;
      Subset(a - {x}, b - {x});
    }
  }

  /**
   Wrapping windows can do with fewer pairs exactly when one of the 16 windows that wrap, together
   with the packed rest, takes fewer.
   */
  lemma {:induction false} OptimalModulo(s: seq<uint16>)
    requires Ascending(s)
    ensures (exists ws :: CoversModulo(ws, s) && |ws| < |Packed(s)|) <==>
            (exists w: uint16 :: WRAPS <= w && 1 + |Packed(Outside(s, w))| < |Packed(s)|)
  {
    if ws :| CoversModulo(ws, s) && |ws| < |Packed(s)| {
      FewerByWrapping(s, ws);
    }
    if w: uint16 :| WRAPS <= w && 1 + |Packed(Outside(s, w))| < |Packed(s)| {
      var ws := WrapCovers(s, w);
    }
  }

  lemma {:induction false} FewerByWrapping(s: seq<uint16>, ws: set<uint16>)
    requires Ascending(s) && CoversModulo(ws, s) && |ws| < |Packed(s)|
    ensures exists w: uint16 :: WRAPS <= w && 1 + |Packed(Outside(s, w))| < |Packed(s)|
  {
    hide Packed;
    if exists v :: v in ws && v >= WRAPS {
      var w := FurthestWrap(ws);
      var rest := Outside(s, w);
      var vs: set<int> := ws - {w};
      forall x | x in rest ensures Hit(vs, x) {
        var v :| v in ws && InWindow(v, x);
        assert v as int in vs && InSpan(v, x);
      }
      OutsideAscending(s, w);
      Optimal(rest, vs);
    } else {
      var vs: set<int> := ws;
      forall x | x in s ensures Hit(vs, x) {
        var w :| w in ws && InWindow(w, x);
        assert w as int in vs && InSpan(w, x);
      }
      Optimal(s, vs);
      assert false;
    }
  }

  /** Two packets on either side of the wrap are packed into two pairs where one would do. */
  lemma {:induction false} NotOptimalModulo()
    ensures Ascending([3, 65530]) && |Packed([3, 65530])| == 2 && CoversModulo({65530}, [3, 65530])
  {
    var s: seq<uint16> := [3, 65530];
    assert s[..1] == [3] && s[..1][..0] == [];
    assert Packed(s[..1]) == Add(Packed([]), 3);
    assert Packed(s) == Add(Packed(s[..1]), 65530);
    var ws: set<uint16> := {65530};
    assert 65530 in ws && InWindow(65530, 3) && InWindow(65530, 65530);
  }
}
