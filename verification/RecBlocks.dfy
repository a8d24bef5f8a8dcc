/** The list of received block ranges (coap_rblock_t, src/block.c:742-771 and 1144-1197). */
module RecBlocks {

  datatype Range = Range(begin: nat, end: nat)

  /** Ranges are non-empty, ascending, disjoint and never touch. */
  predicate WellFormed(s: seq<Range>)
  {
    && (forall i :: 0 <= i < |s| ==> s[i].begin <= s[i].end)
    && (forall i, j :: 0 <= i < j < |s| ==> s[i].end + 1 < s[j].begin)
  }

  predicate Within(r: Range, n: nat) { r.begin <= n <= r.end }

  ghost predicate Has(s: seq<Range>, n: nat)
  {
    exists i :: 0 <= i < |s| && Within(s[i], n)
  }

  /** `s` is a well-formed list for exactly the block numbers in `b`. */
  ghost predicate Represents(s: seq<Range>, b: set<nat>)
  {
    WellFormed(s) && forall n: nat :: n in b <==> Has(s, n)
  }

  ghost function Prefix(k: nat): (r: set<nat>)
    ensures forall n: nat :: n in r <==> n < k
  {
    if k == 0 then {} else Prefix(k - 1) + {k - 1}
  }

  // ----- received blocks as a set, the view the transfer proofs use -----

  ghost predicate IsStart(b: set<nat>, n: nat) { n == 0 || n - 1 !in b }

  /** The first number of each run of consecutive members. */
  ghost function Starts(b: set<nat>): set<nat>
  {
    set n | n in b && IsStart(b, n)
  }

  ghost predicate Isolated(b: set<nat>, n: nat)
  {
    n !in b && n + 1 !in b && IsStart(b, n)
  }

  /** `n` would need a new range and `cap - 1` ranges are in use already. */
  ghost predicate Refused(b: set<nat>, n: nat, cap: nat)
  {
    Isolated(b, n) && |Starts(b)| + 1 == cap
  }

  /** What check_all_blocks_in decides: one gapless run from block 0 that reaches `total`. */
  ghost predicate Complete(b: set<nat>, total: nat)
  {
    exists k: nat :: k > 0 && k >= total && b == Prefix(k)
  }

  /** With no block recorded past the end, the test succeeds exactly when every block is in. */
  lemma {:induction false} CompleteMeansAllIn(b: set<nat>, total: nat)
    requires b != {} && b <= Prefix(total)
    ensures Complete(b, total) <==> b == Prefix(total)
  {
    assert total > 0;
    if Complete(b, total) {
      var k: nat :| k > 0 && k >= total && b == Prefix(k);
      assert k - 1 in b;
    }
  }

  // ----- well-formed lists are a canonical form -----

  /** Two well-formed lists for the same set are identical, whatever order built them. */
  lemma {:induction false} Canonical(s: seq<Range>, t: seq<Range>)
    requires WellFormed(s) && WellFormed(t)
    requires forall n: nat :: Has(s, n) <==> Has(t, n)
    ensures s == t
  {
    CanonicalFrom(s, t, 0);
  }

  lemma {:induction false} CanonicalFrom(s: seq<Range>, t: seq<Range>, j: nat)
    requires WellFormed(s) && WellFormed(t) && j <= |s| && j <= |t|
    requires forall n: nat :: Has(s, n) <==> Has(t, n)
    requires forall x :: 0 <= x < j ==> s[x] == t[x]
    ensures s == t
    decreases |s| - j
  {
    if j < |s| { BeginsNoLater(s, t, j); }
    if j < |t| { BeginsNoLater(t, s, j); }
    if j < |s| {
      EndsNoLater(s, t, j);
      EndsNoLater(t, s, j);
      CanonicalFrom(s, t, j + 1);
    }
  }

  lemma {:induction false} BeginsNoLater(s: seq<Range>, t: seq<Range>, j: nat)
    requires WellFormed(s) && WellFormed(t) && j < |s| && j <= |t|
    requires forall n: nat :: Has(s, n) <==> Has(t, n)
    requires forall x :: 0 <= x < j ==> s[x] == t[x]
    ensures j < |t| && t[j].begin <= s[j].begin
  {
    var n := s[j].begin;
    assert Within(s[j], n) && Has(s, n);
    var y :| 0 <= y < |t| && Within(t[y], n);
    assert y >= j;
  }

  lemma {:induction false} EndsNoLater(s: seq<Range>, t: seq<Range>, j: nat)
    requires WellFormed(s) && WellFormed(t) && j < |s| && j < |t|
    requires forall n: nat :: Has(s, n) <==> Has(t, n)
    requires s[j].begin == t[j].begin
    ensures t[j].end <= s[j].end
  {
    var n := s[j].end + 1;
    assert !Has(s, n);
    assert !Within(t[j], n);
  }

  ghost predicate BeginsIn(s: seq<Range>, j: nat, n: nat)
    requires j <= |s|
  {
    exists x :: 0 <= x < j && s[x].begin == n
  }

  ghost function BeginSet(s: seq<Range>, j: nat): (b: set<nat>)
    requires j <= |s|
    ensures forall n: nat :: n in b <==> BeginsIn(s, j, n)
  {
    if j == 0 then {} else BeginSet(s, j - 1) + {s[j - 1].begin}
  }

  lemma {:induction false} BeginsCount(s: seq<Range>, j: nat)
    requires WellFormed(s) && j <= |s|
    ensures |BeginSet(s, j)| == j
  {
    if j > 0 {
      BeginsCount(s, j - 1);
      assert s[j - 1].begin !in BeginSet(s, j - 1);
    }
  }

  /** A well-formed list has one range per run of its set. */
  lemma {:induction false} OneRangePerRun(s: seq<Range>, b: set<nat>)
    requires Represents(s, b)
    ensures |Starts(b)| == |s|
  {
    BeginsCount(s, |s|);
    forall n | n in BeginSet(s, |s|)
      ensures n in Starts(b)
    {
      assert BeginsIn(s, |s|, n);
      var x :| 0 <= x < |s| && s[x].begin == n;
      BeginIsStart(s, x);
      assert n in b && IsStart(b, n);
    }
    forall n | n in Starts(b)
      ensures n in BeginSet(s, |s|)
    {
      StartIsBegin(s, n);
    }
    assert Starts(b) == BeginSet(s, |s|);
  }

  lemma {:induction false} BeginIsStart(s: seq<Range>, x: nat)
    requires WellFormed(s) && x < |s|
    ensures Has(s, s[x].begin) && (s[x].begin > 0 ==> !Has(s, s[x].begin - 1))
  {
    assert Within(s[x], s[x].begin);
  }

  lemma {:induction false} StartIsBegin(s: seq<Range>, n: nat)
    requires WellFormed(s) && Has(s, n) && (n == 0 || !Has(s, n - 1))
    ensures BeginsIn(s, |s|, n)
  {
    var x :| 0 <= x < |s| && Within(s[x], n);
    if n > 0 {
      assert !Within(s[x], n - 1);
    }
    assert s[x].begin == n;
  }

  // ----- how a number enters a list -----

  /** `t` is `s` with the ranges `i..next` replaced by the single range `r`. */
  ghost predicate Spliced(s: seq<Range>, t: seq<Range>, i: nat, next: nat, r: Range)
  {
    && i <= next <= |s| && |t| == |s| - (next - i) + 1
    && (forall k :: 0 <= k < i ==> t[k] == s[k])
    && t[i] == r
    && (forall k :: i < k < |t| ==> t[k] == s[k - (i + 1) + next])
  }

  /** `r` holds `n` and, besides it, exactly what the ranges `i..next` hold. */
  ghost predicate Takes(s: seq<Range>, i: nat, next: nat, r: Range, n: nat)
    requires i <= next <= |s|
  {
    && Within(r, n)
    && (forall k, x :: i <= x < next && Within(s[x], k) ==> Within(r, k))
    && (forall k :: Within(r, k) && k != n ==> exists x :: i <= x < next && Within(s[x], k))
  }

  /** If `r` takes in `n` besides what it replaces and stays clear of its neighbours, the list stays
      well-formed and gains exactly `n`. */
  lemma {:induction false} Splice(s: seq<Range>, t: seq<Range>, i: nat, next: nat, r: Range, n: nat)
    requires WellFormed(s) && Spliced(s, t, i, next, r) && Takes(s, i, next, r, n)
    requires i > 0 ==> s[i - 1].end + 1 < r.begin
    requires next < |s| ==> r.end + 1 < s[next].begin
    ensures WellFormed(t)
    ensures forall k: nat :: Has(t, k) <==> Has(s, k) || k == n
  {
    SpliceOrder(s, t, i, next, r);
    forall k: nat
      ensures Has(t, k) <==> Has(s, k) || k == n
    {
      SpliceMember(s, t, i, next, r, n, k);
    }
  }

  lemma {:induction false} SpliceMember(s: seq<Range>, t: seq<Range>, i: nat, next: nat, r: Range, n: nat, k: nat)
    requires Spliced(s, t, i, next, r) && Takes(s, i, next, r, n)
    ensures Has(t, k) <==> Has(s, k) || k == n
  {
    if Has(t, k) {
      var x :| 0 <= x < |t| && Within(t[x], k);
      if x > i {
        assert Within(s[x - (i + 1) + next], k);
      } else if x < i {
        assert Within(s[x], k);
      }
    }
    if Has(s, k) {
      var x :| 0 <= x < |s| && Within(s[x], k);
      if x < i {
        assert Within(t[x], k);
      } else if x >= next {
        assert Within(t[x - next + (i + 1)], k);
      } else {
        assert Within(t[i], k);
      }
    }
    assert k == n ==> Within(t[i], k);
  }

  lemma {:induction false} SpliceOrder(s: seq<Range>, t: seq<Range>, i: nat, next: nat, r: Range)
    requires WellFormed(s) && Spliced(s, t, i, next, r) && r.begin <= r.end
    requires i > 0 ==> s[i - 1].end + 1 < r.begin
    requires next < |s| ==> r.end + 1 < s[next].begin
    ensures WellFormed(t)
  {
    forall j, k | 0 <= j < k < |t|
      ensures t[j].end + 1 < t[k].begin
    {
      if j < i {
        assert s[j].end <= s[i - 1].end;
      }
      if k > i {
        assert s[next].begin <= s[k - (i + 1) + next].begin;
      }
    }
  }

  /** Nothing before position `i` reaches `n` and nothing from it on begins at or before `n`. */
  lemma {:induction false} NotIn(s: seq<Range>, i: nat, n: nat)
    requires WellFormed(s) && i <= |s|
    requires i > 0 ==> s[i - 1].end < n
    requires i < |s| ==> n < s[i].begin
    ensures !Has(s, n)
  {
    assert forall x :: 0 <= x < |s| ==> !Within(s[x], n);
  }

  lemma {:induction false} NewRange(s: seq<Range>, i: nat, n: nat)
    requires WellFormed(s) && i <= |s|
    requires i > 0 ==> s[i - 1].end + 1 < n
    requires i < |s| ==> n + 1 < s[i].begin
    ensures !Has(s, n) && !Has(s, n + 1) && (n > 0 ==> !Has(s, n - 1))
  {
    NotIn(s, i, n);
    NotIn(s, i, n + 1);
    if n > 0 { NotIn(s, i, n - 1); }
  }

  lemma {:induction false} Touching(s: seq<Range>, i: nat, n: nat)
    requires WellFormed(s) && i < |s|
    requires s[i].begin <= n + 1 && n <= s[i].end + 1
    ensures Has(s, n) || Has(s, n + 1) || (n > 0 && Has(s, n - 1))
    ensures Within(s[i], n) ==> Has(s, n)
  {
    assert Within(s[i], s[i].begin) && Within(s[i], s[i].end);
  }

  lemma {:induction false} Joining(s: seq<Range>, i: nat, n: nat)
    requires WellFormed(s) && i + 1 < |s|
    requires n == s[i].end + 1 && s[i + 1].begin == n + 1
    ensures Takes(s, i, i + 2, Range(s[i].begin, s[i + 1].end), n)
  {
    var r := Range(s[i].begin, s[i + 1].end);
    forall k | Within(r, k) && k != n
      ensures exists x :: i <= x < i + 2 && Within(s[x], k)
    {
      assert Within(s[i], k) || Within(s[i + 1], k);
    }
  }

  lemma {:induction false} Extending(s: seq<Range>, i: nat, r: Range, n: nat)
    requires WellFormed(s) && i < |s|
    requires (n + 1 == s[i].begin && r == Range(n, s[i].end)) || (n == s[i].end + 1 && r == Range(s[i].begin, n))
    ensures Takes(s, i, i + 1, r, n)
  {
    forall k | Within(r, k) && k != n
      ensures exists x :: i <= x < i + 1 && Within(s[x], k)
    {
      assert Within(s[i], k);
    }
  }

  /** The three changes the source makes: a new range, one range grown by one, two ranges joined. */
  ghost predicate Shape(s: seq<Range>, i: nat, next: nat, r: Range, n: nat)
  {
    && i <= next <= |s|
    && (i > 0 ==> s[i - 1].end + 1 < r.begin)
    && (next < |s| ==> r.end + 1 < s[next].begin)
    && (|| (next == i && r == Range(n, n))
        || (next == i + 1 && n + 1 == s[i].begin && r == Range(n, s[i].end))
        || (next == i + 1 && n == s[i].end + 1 && r == Range(s[i].begin, n))
        || (next == i + 2 && n == s[i].end + 1 && n + 1 == s[i + 1].begin && r == Range(s[i].begin, s[i + 1].end)))
  }

  lemma {:induction false} ShapeTakes(s: seq<Range>, i: nat, next: nat, r: Range, n: nat)
    requires WellFormed(s) && Shape(s, i, next, r, n)
    ensures Takes(s, i, next, r, n)
  {
    if next == i + 1 {
      Extending(s, i, r, n);
    } else if next == i + 2 {
      Joining(s, i, n);
    }
  }

  // ----- coap_rblock_t and its three functions -----

  class RBlocks {
    var used: nat
    var retry: nat
    const range: array<Range>   // COAP_RBLOCK_CNT entries
    var lastSeen: nat
    ghost var got: set<nat>     // the numbers the list stands for

    /** `cap` is COAP_RBLOCK_CNT (4 in this release). */
    constructor (cap: nat)
      requires cap >= 2
      ensures Valid() && got == {} && range.Length == cap && fresh(range)
    {
      range := new Range[cap](_ => Range(0, 0));
      used, retry, lastSeen, got := 0, 0, 0, {};
    }

    ghost predicate Valid()
      reads this, range
    {
      range.Length >= 2 && used < range.Length && Represents(range[..used], got)
    }

    /** `rec_blocks.used = 0`: everything is forgotten. */
    method Reset()
      requires Valid()
      modifies this`used, this`got
      ensures Valid() && got == {} && used == 0
    {
      used, got := 0, {};
    }

    /** check_if_received_block is set membership. */
    method CheckIfReceived(n: nat) returns (r: bool)
      requires Valid()
      ensures r <==> n in got
    {
      for i := 0 to used
        invariant i > 0 ==> range[..used][i - 1].end < n
      {
        if n < range[i].begin {
          NotIn(range[..used], i, n);
          return false;
        }
        if n <= range[i].end {
          Touching(range[..used], i, n);
          return true;
        }
      }
      NotIn(range[..used], used, n);
      return false;
    }

    /** check_all_blocks_in is the completeness test on the set; an empty list passes for one block. */
    method CheckAllIn(total: nat) returns (r: bool)
      requires Valid()
      ensures used > 0 ==> (r <==> Complete(got, total))
      ensures used == 0 ==> (r <==> total <= 1)
    {
      var block: nat := 0;
      for i := 0 to used
        invariant i == 0 ==> block == 0
        invariant i > 0 ==> i == 1 && range[0].begin == 0 && block == range[0].end
      {
        if block < range[i].begin {
          GapIsIncomplete(range[..used], got, i, total);
          return false;
        }
        if block < range[i].end {
          block := range[i].end;
        }
      }
      if used > 0 {
        SingleRange(range[..used], got, total);
      }
      return block + 1 >= total;
    }

    /** memmove of `range[i..used]` one entry up. */
    method MoveUp(i: nat)
      requires i <= used < range.Length
      modifies range
      ensures forall k :: 0 <= k < range.Length ==>
                range[k] == if i < k <= used then old(range[k - 1]) else old(range[k])
    {
      forall k | i < k <= used {
        range[k] := range[k - 1];
      }
    }

    /** memmove of `range[i + 1..used]` one entry down. */
    method MoveDown(i: nat)
      requires i < used < range.Length
      modifies range
      ensures forall k :: 0 <= k < range.Length ==>
                range[k] == if i <= k < used - 1 then old(range[k + 1]) else old(range[k])
    {
      forall k | i <= k < used - 1 {
        range[k] := range[k + 1];
      }
    }

    /** Ranges `i..next` become the single range `r`. */
    method Put(i: nat, next: nat, r: Range)
      requires i <= next <= used < range.Length && next <= i + 2
      requires next == i ==> used + 1 < range.Length
      modifies this`used, range
      ensures used == old(used) + 1 - (next - i)
      ensures Spliced(old(range[..used]), range[..used], i, next, r)
    {
      ghost var s := range[..used];
      if next == i {
        MoveUp(i);
        used := used + 1;
        assert forall k :: i < k < used ==> range[k] == s[k - 1];
      } else if next == i + 2 {
        MoveDown(i + 1);
        used := used - 1;
        assert forall k :: i < k < used ==> range[k] == s[k + 1];
      } else {
        assert forall k :: i < k < used ==> range[k] == s[k];
      }
      range[i] := r;
    }

    /** Put on a valid list, with its effect on the set. */
    method Take(i: nat, next: nat, r: Range, ghost n: nat)
      requires Valid() && next <= used && Shape(range[..used], i, next, r, n)
      requires next == i ==> used + 1 < range.Length
      modifies this`used, this`got, range
      ensures Valid() && got == old(got) + {n} && used > i
      ensures next > i ==> !Isolated(old(got), n)
    {
      ghost var s := range[..used];
      if next > i {
        Touching(s, i, n);
      }
      ShapeTakes(s, i, next, r, n);
      Put(i, next, r);
      Splice(s, range[..used], i, next, r, n);
      got := got + {n};
    }

    /** The capacity test and the insertion of a range of its own for `n` at position `i`. */
    method TakeNew(i: nat, n: nat) returns (ok: bool)
      requires Valid() && i <= used
      requires i > 0 ==> range[i - 1].end + 1 < n
      requires i < used ==> n + 1 < range[i].begin
      modifies this`used, this`got, range
      ensures Valid() && (!ok <==> Refused(old(got), n, range.Length))
      ensures ok ==> got == old(got) + {n} && used > i
      ensures !ok ==> range[..used] == old(range[..used]) && got == old(got)
    {
      NewRange(range[..used], i, n);
      OneRangePerRun(range[..used], got);
      assert Isolated(got, n);
      if used == range.Length - 1 {
        return false;
      }
      Take(i, i, Range(n, n), n);
      return true;
    }

    /** update_received_blocks refines insertion into the set of received numbers. */
    method Update(n: nat, now: nat) returns (ok: bool)
      requires Valid()
      modifies this, range
      ensures Valid() && retry == 0
      ensures !ok <==> Refused(old(got), n, range.Length)
      ensures !ok ==> range[..used] == old(range[..used]) && got == old(got) && lastSeen == old(lastSeen)
      ensures ok ==> got == old(got) + {n} && lastSeen == now
    {
      retry := 0;
      ghost var s, g := range[..used], got;
      var i := 0;
      while i < used
        invariant 0 <= i <= used == |s| && range[..used] == s && got == g
        invariant lastSeen == old(lastSeen) && retry == 0
        invariant i > 0 ==> s[i - 1].end + 1 < n
      {
        assert range[i] == s[i];
        if range[i].begin <= n <= range[i].end {
          assert Within(s[i], n);
          assert n in g && g + {n} == g;
          break;
        }
        if n < range[i].begin {
          if n + 1 == range[i].begin {
            Take(i, i + 1, Range(n, range[i].end), n);
          } else {
            var room := TakeNew(i, n);
            if !room {
              return false;
            }
          }
          break;
        }
        if n == range[i].end + 1 {
          if i + 1 < used && range[i + 1].begin == n + 1 {
            Take(i, i + 2, Range(range[i].begin, range[i + 1].end), n);
          } else {
            assert i + 1 < used ==> s[i].end + 1 < s[i + 1].begin;
            Take(i, i + 1, Range(range[i].begin, n), n);
          }
          break;
        }
        i := i + 1;
      }
      if i == used {
        var room := TakeNew(i, n);
        if !room {
          return false;
        }
      }
      lastSeen := now;
      return true;
    }
  }

  /** A range that starts beyond what came before leaves a block out. */
  lemma {:induction false} GapIsIncomplete(s: seq<Range>, b: set<nat>, i: nat, total: nat)
    requires Represents(s, b) && i < |s| && i <= 1
    requires s[i].begin > (if i == 0 then 0 else s[0].end)
    ensures !Complete(b, total)
  {
    var gap := s[i].begin - 1;
    if i == 1 { assert s[0].end + 1 < s[1].begin; }
    NotIn(s, i, gap);
    Touching(s, i, s[i].begin);
    assert gap !in b && s[i].begin in b;
    assert forall k: nat :: s[i].begin in Prefix(k) ==> gap in Prefix(k);
  }

  lemma {:induction false} SingleRange(s: seq<Range>, b: set<nat>, total: nat)
    requires |s| == 1 && Represents(s, b) && s[0].begin == 0
    ensures Complete(b, total) <==> s[0].end + 1 >= total
  {
    var k0 := s[0].end + 1;
    assert forall n: nat :: Has(s, n) <==> Within(s[0], n);
    assert b == Prefix(k0);
    forall k: nat | k > 0 && b == Prefix(k)
      ensures k == k0
    {
      assert k - 1 in Prefix(k0) && k0 - 1 in Prefix(k);
    }
  }

  // ----- runs of update_received_blocks -----

  ghost function Seen(nums: seq<nat>, j: nat): set<nat>
    requires j <= |nums|
  {
    if j == 0 then {} else Seen(nums, j - 1) + {nums[j - 1]}
  }

  /** None of the first `j` numbers needs a range that the list has no room for. */
  ghost predicate Accepted(cap: nat, nums: seq<nat>, j: nat)
    requires j <= |nums|
  {
    j == 0 || (Accepted(cap, nums, j - 1) && !Refused(Seen(nums, j - 1), nums[j - 1], cap))
  }

  /** A new list receives `nums` one after the other, repeats included, until one is refused. */
  method Replay(cap: nat, nums: seq<nat>) returns (ok: bool, list: seq<Range>)
    requires cap >= 2
    ensures ok <==> Accepted(cap, nums, |nums|)
    ensures ok ==> Represents(list, Seen(nums, |nums|))
  {
    var rec := new RBlocks(cap);
    ok := true;
    for j := 0 to |nums|
      invariant fresh(rec) && fresh(rec.range) && rec.range.Length == cap
      invariant rec.Valid()
      invariant ok <==> Accepted(cap, nums, j)
      invariant ok ==> rec.got == Seen(nums, j)
    {
      if ok {
        ok := rec.Update(nums[j], j);
      }
    }
    list := rec.range[..rec.used];
  }

  /** Two runs over the same numbers, in whatever order and with whatever repeats, leave the same list. */
  method Confluence(cap: nat, a: seq<nat>, b: seq<nat>)
    returns (okA: bool, listA: seq<Range>, okB: bool, listB: seq<Range>)
    requires cap >= 2
    ensures okA <==> Accepted(cap, a, |a|)
    ensures okB <==> Accepted(cap, b, |b|)
    ensures okA && okB ==> (listA == listB <==> Seen(a, |a|) == Seen(b, |b|))
  {
    okA, listA := Replay(cap, a);
    okB, listB := Replay(cap, b);
    if okA && okB && Seen(a, |a|) == Seen(b, |b|) {
      Canonical(listA, listB);
    }
    assert okA && okB && listA == listB ==> forall n: nat :: n in Seen(a, |a|) <==> n in Seen(b, |b|);
  }

  /** The next block of a gapless prefix is never refused. */
  lemma {:induction false} NextIsAccepted(k: nat, cap: nat)
    requires cap >= 2
    ensures !Refused(Prefix(k), k, cap)
    ensures Prefix(k) + {k} == Prefix(k + 1)
  {
    if k == 0 {
      assert Starts(Prefix(0)) == {};
    } else {
      assert k - 1 in Prefix(k);
    }
  }

  /** A prefix that is too short is not complete. */
  lemma {:induction false} NotYetComplete(k: nat, total: nat)
    requires k < total
    ensures !Complete(Prefix(k), total)
  {
    forall j: nat | j > 0 && j >= total
      ensures Prefix(k) != Prefix(j)
    {
      assert k in Prefix(j) && k !in Prefix(k);
    }
  }
}
