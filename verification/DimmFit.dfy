/**
 What one more DIMM does to a board, and what a whole sequence of offers leaves behind.

 A board keeps its installed sizes ascending. One offer is `Fit` and then, when it fits, `After`.
 The main result is that offering DIMMs one at a time, in any order, ends with exactly the largest
 ones the board has room for.
 */
module DimmFit {
  import opened Wrappers
  import opened SortedInts

  datatype Warning = SlotsNotObserved | ExceedsStatedMaximum(total: int, maximum: int)

  datatype FitResult = FitResult(netBytes: int, replacesBytes: Option<int>, warnings: seq<Warning>)

  datatype Capabilities = Capabilities(dimmSlotsFree: Option<int>, memoryMaxBytes: Option<int>)

  datatype Board = Board(freeSlots: Option<int>, installed: seq<int>, maxBytes: Option<int>) {

    static function Of(caps: Capabilities, installed: seq<int>): Board {
      Board(
        caps.dimmSlotsFree,
        Sort(installed),
        if caps.memoryMaxBytes == Some(0) then None else caps.memoryMaxBytes)
    }

    /** How `size` bytes land here, or None when nothing can be gained. */
    function Fit(size: int): Option<FitResult> {
      if freeSlots == None then
        Some(FitResult(size, None, [SlotsNotObserved] + MaximumWarning(size)))
      else if freeSlots.value > 0 then
        Some(FitResult(size, None, MaximumWarning(size)))
      else if installed == [] then
        None
      else if size <= installed[0] then
        None
      else
        Some(FitResult(size - installed[0], Some(installed[0]), MaximumWarning(size - installed[0])))
    }

    function MaximumWarning(netBytes: int): seq<Warning> {
      var total := Sum(installed) + netBytes;
      if maxBytes.Some? && maxBytes.value != 0 && installed != [] && total > maxBytes.value then
        [ExceedsStatedMaximum(total, maxBytes.value)]
      else []
    }

    /** The board once `fit` has been applied. */
    function After(size: int, fit: FitResult): Board
      requires fit.replacesBytes.Some? ==> fit.replacesBytes.value in installed
    {
      var kept := if fit.replacesBytes.Some? then RemoveFirst(installed, fit.replacesBytes.value) else installed;
      var free := if freeSlots.Some? && fit.replacesBytes == None then Some(freeSlots.value - 1) else freeSlots;
      Board(free, Sort(kept + [size]), maxBytes)
    }

    /** How many DIMMs the board can hold; a negative free count reads as a full board. */
    ghost function Room(): nat
      requires freeSlots.Some?
    {
      |installed| + if freeSlots.value > 0 then freeSlots.value else 0
    }
  }

  function RemoveFirst(s: seq<int>, x: int): (r: seq<int>)
    requires x in s
    ensures multiset(r) == multiset(s) - multiset{x}
  {
    if s[0] == x then
      assert s == [s[0]] + s[1..];
      s[1..]
    else
      assert s == [s[0]] + s[1..];
      [s[0]] + RemoveFirst(s[1..], x)
  }

  function Offer(board: Board, size: int): Board {
    match board.Fit(size)
    case None => board
    case Some(fit) => board.After(size, fit)
  }

  function OfferAll(board: Board, sizes: seq<int>): Board {
    if sizes == [] then board
    else Offer(OfferAll(board, sizes[..|sizes| - 1]), sizes[|sizes| - 1])
  }

  /** The reference definition: the `k` largest of `sizes`, ascending. */
  ghost function Largest(sizes: seq<int>, k: nat): seq<int> {
    var s := Sort(sizes);
    if |s| <= k then s else s[|s| - k..]
  }

  // ---------------------------------------------------------------- one offer

  /** Inserting `x` and then keeping the `k` largest, on a sequence that already holds at most `k`. */
  lemma {:induction false} LargestAfterInsert(s: seq<int>, x: int, k: nat)
    requires Sorted(s) && |s| <= k
    ensures Largest(s + [x], k) == if |s| < k then Insert(s, x) else Insert(s, x)[1..]
  {
    assert (s + [x])[..|s|] == s;
    SortOfSorted(s);
  }

  /** What an offer does to the installed sizes: a free slot inserts, a full board also drops its least. */
  lemma {:induction false} OfferInserts(board: Board, size: int)
    requires board.freeSlots.Some? && Sorted(board.installed)
    ensures var s := board.installed;
            Offer(board, size).installed ==
            if board.freeSlots.value > 0 then Insert(s, size)
            else if s == [] then []
            else Insert(s, size)[1..]
  {
    var s := board.installed;
    if board.freeSlots.value > 0 {
      assert (s + [size])[..|s|] == s;
      SortOfSorted(s);
    } else if s != [] && size > s[0] {
      assert (s[1..] + [size])[..|s| - 1] == s[1..];
      SortOfSorted(s[1..]);
      assert Insert(s, size)[1..] == Insert(s[1..], size);
    }
  }

  /** One offer keeps the largest `Room` of what was installed plus the new DIMM. */
  lemma {:induction false} OfferKeepsLargest(board: Board, size: int)
    requires board.freeSlots.Some? && Sorted(board.installed)
    ensures Offer(board, size).installed == Largest(board.installed + [size], board.Room())
    ensures Offer(board, size).freeSlots.Some? && Sorted(Offer(board, size).installed)
    ensures Offer(board, size).Room() == board.Room()
  {
    OfferInserts(board, size);
    LargestAfterInsert(board.installed, size, board.Room());
    InsertSorted(board.installed, size);
    SortedSuffix(Insert(board.installed, size), 1);
  }

  /**
   An offer is refused exactly when the best use of the room is what is already there, so a swap
   that gains nothing is not a move and every accepted one is.
   */
  lemma {:induction false} RefusedIffNothingGained(board: Board, size: int)
    requires board.freeSlots.Some? && Sorted(board.installed)
    ensures board.Fit(size) == None <==> Largest(board.installed + [size], board.Room()) == board.installed
  {
    OfferKeepsLargest(board, size);
    if board.Fit(size).Some? {
      AcceptedGrowsBy(board, size);
      assert board.freeSlots.value > 0 ==> |Offer(board, size).installed| == |board.installed| + 1;
    }
  }

  /** An accepted offer grows the host by exactly the `netBytes` it announced, slots observed or not. */
  lemma {:induction false} AcceptedGrowsBy(board: Board, size: int)
    requires board.Fit(size).Some?
    ensures Sum(Offer(board, size).installed) == Sum(board.installed) + board.Fit(size).value.netBytes
    ensures Sorted(Offer(board, size).installed)
  {
    hide Sort, Sorted, Board.MaximumWarning;
    var fit := board.Fit(size).value;
    var kept := if fit.replacesBytes.Some? then RemoveFirst(board.installed, fit.replacesBytes.value)
        else board.installed;
    SortSorted(kept + [size]);
    SortContents(kept + [size]);
    SumAppend(kept, size);
  }

  /** A board starts with its sizes ascending; a stated maximum of zero is no maximum. */
  lemma {:induction false} OfSorts(caps: Capabilities, installed: seq<int>)
    ensures var b := Board.Of(caps, installed);
            && (forall i, j :: 0 <= i <= j < |b.installed| ==> b.installed[i] <= b.installed[j])
            && Sorted(b.installed) && multiset(b.installed) == multiset(installed)
            && b.freeSlots == caps.dimmSlotsFree
            && (forall m :: b.maxBytes == Some(m) <==> caps.memoryMaxBytes == Some(m) && m != 0)
  {
    hide Sort, Sorted;
    SortSorted(installed);
    SortContents(installed);
    var s := Sort(installed);
    forall i, j | 0 <= i <= j < |s| ensures s[i] <= s[j] {
      SortedSuffix(s, i);
      HeadIsLeast(s[i..], j - i);
    }
  }

  /** Only a full board refuses, when it is empty or its least DIMM is as large; otherwise that one goes. */
  lemma FullBoardSwapsItsLeast(board: Board, size: int)
    ensures board.Fit(size) == None <==>
            board.freeSlots.Some? && board.freeSlots.value <= 0 && (board.installed == [] || size <= board.installed[0])
    ensures board.Fit(size).Some? ==>
              board.Fit(size).value.replacesBytes ==
              if board.freeSlots.Some? && board.freeSlots.value <= 0 then Some(board.installed[0]) else None
  {
  }

  /** The warnings: slots nobody observed, and a total, once it is in, above the stated maximum. */
  lemma {:induction false} WarningsSay(board: Board, size: int)
    requires board.Fit(size).Some?
    ensures var warnings, total := board.Fit(size).value.warnings, Sum(Offer(board, size).installed);
            && (SlotsNotObserved in warnings <==> board.freeSlots == None)
            && (forall t, m :: ExceedsStatedMaximum(t, m) in warnings <==>
                  board.maxBytes == Some(m) && m != 0 && board.installed != [] && t == total && total > m)
  {
    AcceptedGrowsBy(board, size);
    hide Sum, Sort, RemoveFirst, Sorted, Offer;
  }

  // ---------------------------------------------------------------- any number of offers

  /** Keeping the `k` largest after every element is as good as keeping them once at the end. */
  lemma {:induction false} LargestStreams(sizes: seq<int>, x: int, k: nat)
    ensures Largest(Largest(sizes, k) + [x], k) == Largest(sizes + [x], k)
  {
    var s := Sort(sizes);
    SortSorted(sizes);
    assert (sizes + [x])[..|sizes|] == sizes;
    var d := if |s| <= k then 0 else |s| - k;
    assert Largest(sizes, k) == s[d..];
    SortedSuffix(s, d);
    LargestAfterInsert(s[d..], x, k);
    InsertIntoSuffix(s, d, x);
    assert s[0..] == s;
  }

  /** Offering DIMMs one after another leaves exactly the largest ones the board has room for. */
  lemma {:induction false} OfferAllKeepsLargest(board: Board, sizes: seq<int>)
    requires board.freeSlots.Some? && Sorted(board.installed)
    ensures OfferAll(board, sizes).installed == Largest(board.installed + sizes, board.Room())
    ensures OfferAll(board, sizes).freeSlots.Some? && Sorted(OfferAll(board, sizes).installed)
    ensures OfferAll(board, sizes).Room() == board.Room()
  {
    hide Offer;
    if sizes == [] {
      assert board.installed + sizes == board.installed;
      SortOfSorted(board.installed);
    } else {
      var init, last := sizes[..|sizes| - 1], sizes[|sizes| - 1];
      OfferAllKeepsLargest(board, init);
      OfferKeepsLargest(OfferAll(board, init), last);
      LargestStreams(board.installed + init, last, board.Room());
      assert board.installed + sizes == board.installed + init + [last];
    }
  }

  /** When the slots were never observed every DIMM is taken. */
  lemma {:induction false} UnobservedTakesAll(board: Board, sizes: seq<int>)
    requires board.freeSlots == None && Sorted(board.installed)
    ensures OfferAll(board, sizes) == board.(installed := Sort(board.installed + sizes))
  {
    hide Sum, Sorted;
    if sizes == [] {
      assert board.installed + sizes == board.installed;
      SortOfSorted(board.installed);
    } else {
      var init, x := sizes[..|sizes| - 1], sizes[|sizes| - 1];
      UnobservedTakesAll(board, init);
      assert board.installed + sizes == board.installed + init + [x];
      SortAppend(board.installed + init, x);
      SortAppend(Sort(board.installed + init), x);
      SortSorted(board.installed + init);
      SortOfSorted(Sort(board.installed + init));
    }
  }

  /** The order in which the DIMMs are offered does not matter. */
  lemma {:induction false} OfferOrderIrrelevant(board: Board, sizes: seq<int>, shuffled: seq<int>)
    requires board.freeSlots.Some? && Sorted(board.installed)
    requires multiset(sizes) == multiset(shuffled)
    ensures OfferAll(board, sizes).installed == OfferAll(board, shuffled).installed
  {
    OfferAllKeepsLargest(board, sizes);
    OfferAllKeepsLargest(board, shuffled);
    SortOfMultiset(board.installed + sizes, board.installed + shuffled);
  }

  /** One way of choosing DIMMs: those of `sizes` whose flag is set. */
  ghost function Chosen(sizes: seq<int>, flags: seq<bool>): seq<int>
    requires |flags| == |sizes|
  {
    if sizes == [] then []
    else
      var rest := Chosen(sizes[..|sizes| - 1], flags[..|sizes| - 1]);
      if flags[|sizes| - 1] then rest + [sizes[|sizes| - 1]] else rest
  }

  /** Adding `x` to the pool raises the best total of `k` by at least what using or ignoring it would. */
  lemma {:induction false} BestGrows(s: seq<int>, x: int, k: nat)
    requires Sorted(s) && 0 < k <= |s|
    ensures var d := |s| - k;
            var best := Sum(Insert(s, x)[d + 1..]);
            best >= Sum(s[d..]) && best >= Sum(s[d + 1..]) + x
  {
    var top := s[|s| - k..];
    InsertIntoSuffix(s, |s| - k, x);
    SortedSuffix(s, |s| - k);
    InsertContents(top, x);
    assert top[1..] == s[|s| - k + 1..];
  }

  lemma {:induction false} ChosenAtMostLargest(sizes: seq<int>, flags: seq<bool>)
    requires |flags| == |sizes|
    ensures |Chosen(sizes, flags)| <= |sizes|
    ensures Sum(Chosen(sizes, flags)) <= Sum(Largest(sizes, |Chosen(sizes, flags)|))
  {
    hide Sort, Sum, Insert;
    if sizes != [] {
      var init, x := sizes[..|sizes| - 1], sizes[|sizes| - 1];
      var rest := Chosen(init, flags[..|init|]);
      ChosenAtMostLargest(init, flags[..|init|]);
      SumAppend(rest, x);
      LargestTotals(init, x, |Chosen(sizes, flags)|);
      assert sizes == init + [x];
    } else {
      assert Largest(sizes, 0) == [];
    }
  }

  /**
   The best total of `k` out of a pool with `x` added is at least the best without it, and at least the
   best of `k - 1` plus `x`.
   */
  lemma {:induction false} LargestTotals(pool: seq<int>, x: int, k: nat)
    requires k <= |pool| + 1
    ensures k <= |pool| ==> Sum(Largest(pool + [x], k)) >= Sum(Largest(pool, k))
    ensures k > 0 ==> Sum(Largest(pool + [x], k)) >= Sum(Largest(pool, k - 1)) + x
  {
    hide Sum, Insert, Sort, Sorted;
    var s := Sort(pool);
    SortSorted(pool);
    SortAppend(pool, x);
    if k == 0 {
      assert Largest(pool + [x], k) == [] == Largest(pool, k);
    } else if k <= |s| {
      BestGrows(s, x, k);
    } else {
      InsertContents(s, x);
      assert s[0..] == s;
    }
  }

  /** No other choice of as many DIMMs, out of those installed and offered, totals more. */
  lemma {:induction false} OfferAllIsBest(board: Board, sizes: seq<int>, flags: seq<bool>)
    requires board.freeSlots.Some? && Sorted(board.installed)
    requires |flags| == |board.installed + sizes|
    requires |Chosen(board.installed + sizes, flags)| == |OfferAll(board, sizes).installed|
    ensures Sum(Chosen(board.installed + sizes, flags)) <= Sum(OfferAll(board, sizes).installed)
  {
    hide Sort, Sum, Sorted, Chosen, OfferAll;
    OfferAllKeepsLargest(board, sizes);
    ChosenAtMostLargest(board.installed + sizes, flags);
    assert Sort(board.installed + sizes)[0..] == Sort(board.installed + sizes);
  }

  lemma {:induction false} MaximumOnlyWarns(board: Board, maxBytes: Option<int>, size: int)
    ensures Offer(board.(maxBytes := maxBytes), size) == Offer(board, size).(maxBytes := maxBytes)
  {
    hide Sort, Sum, RemoveFirst, Sorted, Board.MaximumWarning;
    var other := board.(maxBytes := maxBytes);
    if board.Fit(size).Some? {
      assert other.Fit(size).value.replacesBytes == board.Fit(size).value.replacesBytes;
    }
  }

  /** The stated maximum only ever adds a warning: it never changes what is placed or gained. */
  lemma {:induction false} MaximumNeverRefuses(board: Board, maxBytes: Option<int>, sizes: seq<int>)
    ensures OfferAll(board.(maxBytes := maxBytes), sizes) == OfferAll(board, sizes).(maxBytes := maxBytes)
  {
    if sizes != [] {
      MaximumNeverRefuses(board, maxBytes, sizes[..|sizes| - 1]);
      MaximumOnlyWarns(OfferAll(board, sizes[..|sizes| - 1]), maxBytes, sizes[|sizes| - 1]);
    }
  }
}
