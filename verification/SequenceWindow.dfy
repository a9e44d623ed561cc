/** The duplicate filter of FECDisabledDecoder as a function on its two fields. Housekeeping
    removes the SMALLEST known number, not the oldest, so what the filter remembers is decided
    by the set of numbers received and not by their order. */
module SequenceWindow {
  const MAX_SIZE_OF_MAP: nat := 100

  /** Housekeeping keeps the map below MAX_SIZE_OF_MAP - 1 entries. */
  const WINDOW: nat := MAX_SIZE_OF_MAP - 2

  datatype Filter = Filter(known: set<nat>, firstEver: bool)

  const Fresh := Filter({}, true)

  lemma MinExists(s: set<nat>) returns (m: nat)
    requires s != {}
    ensures m in s && forall x | x in s :: m <= x
  {
    var a :| a in s;
    m := a;
    if s != {a} {
      var k := MinExists(s - {a});
      m := if k < a then k else a;
      assert forall x | x in s :: x == a || x in s - {a};
    }
  }

  ghost function Smallest(s: set<nat>): (m: nat)
    requires s != {}
    ensures m in s && forall x | x in s :: m <= x
  {
    assert exists m :: m in s && forall x | x in s :: m <= x by { var m := MinExists(s); }
    var m :| m in s && forall x | x in s :: m <= x;
    m
  }

  /** The map after one valid packet numbered `n`. */
  ghost function Accept(f: Filter, n: nat): Filter {
    var seen := if f.firstEver then {n} else f.known + {n};
    Filter(if |seen| >= MAX_SIZE_OF_MAP - 1 then seen - {Smallest(seen)} else seen, false)
  }

  /** Whether that packet is handed to the payload callback. */
  predicate Forwards(f: Filter, n: nat) {
    f.firstEver || n !in f.known
  }

  /** `k` is the set of the WINDOW largest members of `d`, or all of `d` when it is no larger. */
  ghost predicate IsTop(k: set<nat>, d: set<nat>) {
    && k <= d
    && |k| == (if |d| < WINDOW then |d| else WINDOW)
    && forall x, y | x in k && y in d && y !in k :: y < x
  }

  ghost function Larger(d: set<nat>, n: nat): set<nat> {
    set x | x in d && x > n
  }

  lemma SubsetSize(a: set<nat>, b: set<nat>)
    requires a <= b
    ensures |a| <= |b|
    ensures |a| == |b| ==> a == b
  {
    assert b == a + (b - a);
  }

  /** Membership of the window decided by counting: a received number is remembered exactly
      while fewer than WINDOW larger ones have been received. */
  lemma TopMember(k: set<nat>, d: set<nat>, n: nat)
    requires IsTop(k, d)
    ensures n in k <==> n in d && |Larger(d, n)| < WINDOW
  {
    if n in k {
      forall x | x in Larger(d, n) ensures x in k - {n} {}
      SubsetSize(Larger(d, n), k - {n});
    } else if n in d {
      SubsetSize(k, d);
      forall x | x in k ensures x in Larger(d, n) { assert x in d; }
      SubsetSize(k, Larger(d, n));
    }
  }

  /** The window of a received set is unique. */
  lemma TopUnique(k1: set<nat>, k2: set<nat>, d: set<nat>)
    requires IsTop(k1, d) && IsTop(k2, d)
    ensures k1 == k2
  {
    forall n ensures n in k1 <==> n in k2 {
      TopMember(k1, d, n);
      TopMember(k2, d, n);
    }
  }

  lemma AcceptKeepsTop(f: Filter, d: set<nat>, n: nat)
    requires IsTop(f.known, d) && (f.firstEver ==> d == {})
    ensures IsTop(Accept(f, n).known, d + {n})
  {
    var seen := f.known + {n};
    SubsetSize(f.known, d);
    SubsetSize(d, d + {n});
    if |seen| >= MAX_SIZE_OF_MAP - 1 {
      var m := Smallest(seen);
      assert n !in f.known && |f.known| == WINDOW;
      forall x, y | x in seen - {m} && y in d + {n} && y !in seen - {m} ensures y < x {
        if y != m {
          assert y in d && y !in f.known;
          if x == n {
            assert m in f.known;
          }
        }
      }
      assert |seen - {m}| == WINDOW;
    } else if f.known == d {
      assert seen == d + {n};
    } else {
      assert n in f.known;
      assert seen == f.known && d + {n} == d;
    }
  }

  // ----- whole runs -----

  datatype Event = Packet(number: nat) | NewSession

  ghost function Step(f: Filter, e: Event): Filter {
    match e
    case Packet(n) => Accept(f, n)
    case NewSession => Filter({}, f.firstEver)
  }

  ghost function Run(es: seq<Event>): Filter {
    if es == [] then Fresh else Step(Run(es[..|es| - 1]), es[|es| - 1])
  }

  /** The distinct numbers received since construction or the last session change. */
  ghost function Received(es: seq<Event>): set<nat> {
    if es == [] then {} else
      match es[|es| - 1]
      case Packet(n) => Received(es[..|es| - 1]) + {n}
      case NewSession => {}
  }

  /** Window theorem: whatever was received, in whatever order and with whatever repetitions,
      the map holds exactly the largest min(98, n) of the n distinct numbers. */
  lemma {:induction false} WindowAfterRun(es: seq<Event>)
    ensures IsTop(Run(es).known, Received(es))
    ensures Run(es).firstEver ==> Received(es) == {}
  {
    if es != [] {
      var before := es[..|es| - 1];
      WindowAfterRun(before);
      if es[|es| - 1].Packet? {
        AcceptKeepsTop(Run(before), Received(before), es[|es| - 1].number);
      }
    }
  }

  /** The next packet is forwarded iff its number is new in this session or has been overtaken
      by WINDOW larger ones; the first-ever path is no exception. */
  lemma ForwardedIff(es: seq<Event>, n: nat)
    ensures Forwards(Run(es), n) <==>
      n !in Received(es) || |set x | x in Received(es) && x > n| >= 98
  {
    WindowAfterRun(es);
    TopMember(Run(es).known, Received(es), n);
    assert Larger(Received(es), n) == set x | x in Received(es) && x > n;
  }
}
