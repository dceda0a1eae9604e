/** `Solution.addTwoNumbers` and its two list helpers: numbers held as
    singly linked lists of decimal digits, least significant digit first. */
module AddTwoNumbers {
  import opened Base

  /** A chain of `ListNode`s; `Nil` is Python's `None` at the end of a chain
      (or in place of a whole list). */
  datatype List = Nil | Node(val: int, next: List)

  function Length(l: List): nat
  {
    match l
    case Nil => 0
    case Node(_, n) => 1 + Length(n)
  }

  /** Ten times `x`. It is spelled out as ten additions rather than `10 * x`
      on purpose: the proofs about digit positions then only ever add, and
      the solver handles sums of one term far more predictably than
      products, whose axioms it instantiates unevenly from run to run. */
  function TimesTen(x: int): int
  {
    x + x + x + x + x + x + x + x + x + x
  }

  /** The number a chain stands for: the first node holds the units. */
  function Value(l: List): int
  {
    match l
    case Nil => 0
    case Node(v, n) => v + TimesTen(Value(n))
  }

  function Pow10(n: nat): (p: nat)
    ensures p >= 1
  {
    if n == 0 then 1 else TimesTen(Pow10(n - 1))
  }

  /** Every node holds a decimal digit. */
  predicate IsDigits(l: List)
  {
    match l
    case Nil => true
    case Node(v, n) => 0 <= v <= 9 && IsDigits(n)
  }

  // ---------------------------------------------------------------- the helpers

  /** `linked_list2array`: the values along the chain, in order. */
  function ToArray(l: List): (a: seq<int>)
    ensures |a| == Length(l)
  {
    match l
    case Nil => []
    case Node(v, n) => [v] + ToArray(n)
  }

  /** `array2linked_list`: one node per element. The head node exists before
      the loop starts, so an empty array still yields a single node holding
      the default value 0. */
  function FromArray(a: seq<int>): (l: List)
    ensures l.Node?
    ensures Length(l) == if |a| == 0 then 1 else |a|
  {
    if |a| <= 1 then Node(if |a| == 0 then 0 else a[0], Nil)
    else Node(a[0], FromArray(a[1..]))
  }

  /** Building a chain from a non-empty array and reading it back gives the
      array; the empty array comes back as `[0]`. */
  lemma {:induction false} ArrayRoundTrip(a: seq<int>)
    ensures ToArray(FromArray(a)) == if |a| == 0 then [0] else a
    decreases |a|
  {
    if |a| > 1 {
      ArrayRoundTrip(a[1..]);
      assert a == [a[0]] + a[1..];
    }
  }

  /** Reading a chain into an array and building it again gives the same
      chain. */
  lemma {:induction false} ListRoundTrip(l: List)
    requires l.Node?
    ensures FromArray(ToArray(l)) == l
  {
    if l.next.Node? {
      ListRoundTrip(l.next);
    }
  }

  // ---------------------------------------------------------------- the addition

  /** The digit a column reads from a list: its node's value, or nothing
      once the list has run out. */
  function Head(l: List): int
  {
    if l.Node? then l.val else 0
  }

  function Tail(l: List): List
  {
    if l.Node? then l.next else Nil
  }

  /** The digit written for a column total (`cur_digit`). */
  function DigitOf(t: int): int
  {
    if t >= 10 then t - 10 else t
  }

  /** The carry passed on from a column total (`rem`). */
  function CarryOf(t: int): (c: int)
    ensures c == 0 || c == 1
    ensures DigitOf(t) + TimesTen(c) == t
  {
    if t >= 10 then 1 else 0
  }

  /** How many more columns a carry alone keeps the loop running: a total
      of ten or more leaves a carry of 1, which leaves none after it. */
  function CarryRank(rem: int): nat
  {
    if rem == 0 then 0 else if rem < 10 then 1 else 2
  }

  /** How many columns the addition has input for: the length of the
      longer input. */
  function Columns(l1: List, l2: List): nat
  {
    if Length(l1) < Length(l2) then Length(l2) else Length(l1)
  }

  /** Whether the loop goes round again (and links a fresh node after the
      current one): some input or the carry is left. */
  predicate Continues(l1: List, l2: List, rem: int)
  {
    l1.Node? || l2.Node? || rem != 0
  }

  /** The node `cur_node` and everything the loop links after it, from a
      state with inputs `l1`, `l2` and carry `rem`: the column's digit, then
      a further node only when the loop goes round again. */
  function Fill(l1: List, l2: List, rem: int): (r: List)
    decreases Length(l1) + Length(l2), CarryRank(rem)
  {
    var t := Head(l1) + Head(l2) + rem;
    var rest := if Continues(Tail(l1), Tail(l2), CarryOf(t)) then Fill(Tail(l1), Tail(l2), CarryOf(t)) else Nil;
    Node(DigitOf(t), rest)
  }

  /** `addTwoNumbers`: the result head is created before the loop, so two
      empty inputs give the single default digit 0. */
  function AddTwoNumbers(l1: List, l2: List): (r: List)
  {
    Fill(l1, l2, 0)
  }

  // ---------------------------------------------------------------- what the addition promises

  /** `l` is a chain of digits standing for the number `n`. */
  predicate StandsFor(l: List, n: int)
  {
    Value(l) == n
  }

  /** The nodes filled from any state stand for the two remaining numbers
      plus the carry, whatever values the nodes hold. */
  lemma {:induction false} FillValue(l1: List, l2: List, rem: int)
    ensures StandsFor(Fill(l1, l2, rem), Value(l1) + Value(l2) + rem)
    decreases Length(l1) + Length(l2), CarryRank(rem)
  {
    var t := Head(l1) + Head(l2) + rem;
    if Continues(Tail(l1), Tail(l2), CarryOf(t)) {
      FillValue(Tail(l1), Tail(l2), CarryOf(t));
    }
  }

  /** The sum chain stands for the sum of the two numbers. */
  lemma {:induction false} AddTwoNumbersValue(l1: List, l2: List)
    ensures StandsFor(AddTwoNumbers(l1, l2), Value(l1) + Value(l2))
  {
    FillValue(l1, l2, 0);
  }

  /** Digits in give digits out. */
  lemma {:induction false} FillDigits(l1: List, l2: List, rem: int)
    requires rem == 0 || rem == 1
    requires IsDigits(l1) && IsDigits(l2)
    ensures IsDigits(Fill(l1, l2, rem))
    decreases Length(l1) + Length(l2), CarryRank(rem)
  {
    var t := Head(l1) + Head(l2) + rem;
    DigitsSplit(l1);
    DigitsSplit(l2);
    if Continues(Tail(l1), Tail(l2), CarryOf(t)) {
      FillDigits(Tail(l1), Tail(l2), CarryOf(t));
    }
  }

  lemma DigitsSplit(l: List)
    requires IsDigits(l)
    ensures 0 <= Head(l) <= 9 && IsDigits(Tail(l))
  {
  }

  /** With digit inputs every node of the sum holds a digit. */
  lemma {:induction false} AddTwoNumbersDigits(l1: List, l2: List)
    requires IsDigits(l1) && IsDigits(l2)
    ensures IsDigits(AddTwoNumbers(l1, l2))
  {
    FillDigits(l1, l2, 0);
  }

  /** `len` nodes are what a total `sum` spread over `m` columns takes: one
      node per column and one more when `sum` overflows them, but never
      fewer than the one node created before the loop. */
  predicate SumLength(len: int, m: nat, sum: int)
  {
    len == Max(1, m + (if sum >= Pow10(m) then 1 else 0))
  }

  /** With digit inputs and a carry of 0 or 1, the loop fills one node per
      column of the longer input, plus one when the total overflows them. */
  lemma {:induction false} FillLength(l1: List, l2: List, rem: int)
    requires rem == 0 || rem == 1
    requires IsDigits(l1) && IsDigits(l2)
    ensures SumLength(Length(Fill(l1, l2, rem)), Columns(l1, l2), Value(l1) + Value(l2) + rem)
    decreases Length(l1) + Length(l2), CarryRank(rem)
  {
    var t := Head(l1) + Head(l2) + rem;
    DigitsSplit(l1);
    DigitsSplit(l2);
    if Continues(Tail(l1), Tail(l2), CarryOf(t)) {
      FillLength(Tail(l1), Tail(l2), CarryOf(t));
      ContinueLength(l1, l2, rem);
    } else {
      StopLength(l1, l2, rem);
    }
  }

  /** The last column: nothing is left after it and no carry, so it is the
      only node still to fill and the total fits in the columns. */
  lemma StopLength(l1: List, l2: List, rem: int)
    requires rem == 0 || rem == 1
    requires 0 <= Head(l1) <= 9 && 0 <= Head(l2) <= 9
    requires !Continues(Tail(l1), Tail(l2), CarryOf(Head(l1) + Head(l2) + rem))
    ensures SumLength(Length(Fill(l1, l2, rem)), Columns(l1, l2), Value(l1) + Value(l2) + rem)
  {
    var t := Head(l1) + Head(l2) + rem;
    ValueSplit(l1);
    ValueSplit(l2);
    assert Length(Fill(l1, l2, rem)) == 1;
    FitsLastColumn(Columns(l1, l2), t);
  }

  lemma FitsLastColumn(m: nat, sum: int)
    requires m <= 1 && sum < 10
    ensures SumLength(1, m, sum)
  {
    assert Pow10(1) == 10;
  }

  /** A column the loop goes on from: one node, then what the next columns
      fill. */
  lemma ContinueLength(l1: List, l2: List, rem: int)
    requires rem == 0 || rem == 1
    requires 0 <= Head(l1) <= 9 && 0 <= Head(l2) <= 9
    requires var c := CarryOf(Head(l1) + Head(l2) + rem);
      && Continues(Tail(l1), Tail(l2), c)
      && SumLength(Length(Fill(Tail(l1), Tail(l2), c)), Columns(Tail(l1), Tail(l2)),
                   Value(Tail(l1)) + Value(Tail(l2)) + c)
    ensures SumLength(Length(Fill(l1, l2, rem)), Columns(l1, l2), Value(l1) + Value(l2) + rem)
  {
    if Columns(Tail(l1), Tail(l2)) == 0 {
      LastCarryLength(l1, l2, rem);
    } else {
      InnerColumnLength(l1, l2, rem);
    }
  }

  /** The loop goes on after the last input column only to write the carry:
      two nodes for a total of ten or more in one column. */
  lemma LastCarryLength(l1: List, l2: List, rem: int)
    requires rem == 0 || rem == 1
    requires Continues(Tail(l1), Tail(l2), CarryOf(Head(l1) + Head(l2) + rem))
    requires Columns(Tail(l1), Tail(l2)) == 0
    ensures SumLength(Length(Fill(l1, l2, rem)), Columns(l1, l2), Value(l1) + Value(l2) + rem)
  {
    NoMoreColumns(Tail(l1), Tail(l2));
    LastCarryNodes(l1, l2, rem);
    LastCarryWidth(l1, l2, rem);
    LastCarryTotal(l1, l2, rem);
    OverflowsLastColumn(Length(Fill(l1, l2, rem)), Value(l1) + Value(l2) + rem);
  }

  lemma NoMoreColumns(l1: List, l2: List)
    requires Columns(l1, l2) == 0
    ensures l1 == Nil && l2 == Nil
  {
  }

  lemma LastCarryNodes(l1: List, l2: List, rem: int)
    requires Tail(l1) == Nil && Tail(l2) == Nil && Head(l1) + Head(l2) + rem >= 10
    ensures Length(Fill(l1, l2, rem)) == 2
  {
    var t := Head(l1) + Head(l2) + rem;
    assert Fill(Nil, Nil, 1) == Node(1, Nil);
    assert Fill(l1, l2, rem) == Node(DigitOf(t), Fill(Nil, Nil, 1));
  }

  lemma LastCarryWidth(l1: List, l2: List, rem: int)
    requires rem <= 1 && Tail(l1) == Nil && Tail(l2) == Nil && Head(l1) + Head(l2) + rem >= 10
    ensures Columns(l1, l2) == 1
  {
    if l1.Node? {
    } else {
      assert l2.Node?;
    }
  }

  lemma LastCarryTotal(l1: List, l2: List, rem: int)
    requires Tail(l1) == Nil && Tail(l2) == Nil && Head(l1) + Head(l2) + rem >= 10
    ensures Value(l1) + Value(l2) + rem >= 10
  {
    ValueSplit(l1);
    ValueSplit(l2);
  }

  /** An input column with more input columns after it. */
  lemma InnerColumnLength(l1: List, l2: List, rem: int)
    requires rem == 0 || rem == 1
    requires 0 <= Head(l1) <= 9 && 0 <= Head(l2) <= 9
    requires Columns(Tail(l1), Tail(l2)) >= 1
    requires var c := CarryOf(Head(l1) + Head(l2) + rem);
      SumLength(Length(Fill(Tail(l1), Tail(l2), c)), Columns(Tail(l1), Tail(l2)),
                Value(Tail(l1)) + Value(Tail(l2)) + c)
    ensures SumLength(Length(Fill(l1, l2, rem)), Columns(l1, l2), Value(l1) + Value(l2) + rem)
  {
    var t := Head(l1) + Head(l2) + rem;
    var c := CarryOf(t);
    InnerWidth(l1, l2);
    InnerNodes(l1, l2, rem);
    ColumnTotal(l1, l2, rem);
    CarryColumn(Length(Fill(l1, l2, rem)), Length(Fill(Tail(l1), Tail(l2), c)), Value(l1) + Value(l2) + rem,
                Value(Tail(l1)) + Value(Tail(l2)) + c, DigitOf(t), Columns(Tail(l1), Tail(l2)));
  }

  /** With input left after this column, there is one column more from
      here than from the next. */
  lemma InnerWidth(l1: List, l2: List)
    requires Columns(Tail(l1), Tail(l2)) >= 1
    ensures Columns(l1, l2) == Columns(Tail(l1), Tail(l2)) + 1
    ensures Tail(l1).Node? || Tail(l2).Node?
  {
    if l1.Node? && l2.Node? {
    } else if l1.Node? {
    } else {
      assert l2.Node?;
    }
  }

  lemma InnerNodes(l1: List, l2: List, rem: int)
    requires Tail(l1).Node? || Tail(l2).Node?
    ensures Length(Fill(l1, l2, rem)) == 1 + Length(Fill(Tail(l1), Tail(l2), CarryOf(Head(l1) + Head(l2) + rem)))
  {
  }

  /** The column's total splits into the digit written and ten times what
      the next columns hold, carry included. */
  lemma ColumnTotal(l1: List, l2: List, rem: int)
    ensures var t := Head(l1) + Head(l2) + rem;
      Value(l1) + Value(l2) + rem == DigitOf(t) + TimesTen(Value(Tail(l1)) + Value(Tail(l2)) + CarryOf(t))
  {
    ValueSplit(l1);
    ValueSplit(l2);
  }

  lemma ValueSplit(l: List)
    ensures Value(l) == Head(l) + TimesTen(Value(Tail(l)))
  {
  }

  lemma OverflowsLastColumn(len: int, sum: int)
    requires len == 2 && sum >= 10
    ensures SumLength(len, 1, sum)
  {
    assert Pow10(1) == 10;
  }

  /** The claim carried over one column: the column adds one node, and a
      total of `digit + TimesTen(rest)` overflows `m + 1` columns exactly
      when `rest` overflows `m`. */
  lemma CarryColumn(len: int, lenRest: int, sum: int, rest: int, digit: int, m: nat)
    requires m >= 1 && len == 1 + lenRest
    requires SumLength(lenRest, m, rest)
    requires 0 <= digit <= 9 && sum == digit + TimesTen(rest)
    ensures SumLength(len, m + 1, sum)
  {
    assert Pow10(m + 1) == TimesTen(Pow10(m));
  }

  /** With digit inputs the sum has the length of the longer input, plus
      one when a carry is left over, and never fewer than one node. */
  lemma {:induction false} AddTwoNumbersLength(l1: List, l2: List)
    requires IsDigits(l1) && IsDigits(l2)
    ensures SumLength(Length(AddTwoNumbers(l1, l2)), Columns(l1, l2), Value(l1) + Value(l2))
  {
    FillLength(l1, l2, 0);
  }

  /** The demonstration: 342 + 465 = 807, written `[2, 4, 3] + [5, 6, 4]`
      and read back as `[7, 0, 8]`. */
  lemma Demo()
    ensures ToArray(AddTwoNumbers(FromArray([2, 4, 3]), FromArray([5, 6, 4]))) == [7, 0, 8]
  {
    DemoInputs();
    DemoSum();
    DemoOutput();
  }

  lemma DemoInputs()
    ensures FromArray([2, 4, 3]) == Node(2, Node(4, Node(3, Nil)))
    ensures FromArray([5, 6, 4]) == Node(5, Node(6, Node(4, Nil)))
  {
    var a, b := [2, 4, 3], [5, 6, 4];
    assert a[1..] == [4, 3] && a[1..][1..] == [3];
    assert b[1..] == [6, 4] && b[1..][1..] == [4];
  }

  lemma DemoSum()
    ensures AddTwoNumbers(Node(2, Node(4, Node(3, Nil))), Node(5, Node(6, Node(4, Nil))))
         == Node(7, Node(0, Node(8, Nil)))
  {
    assert Fill(Node(3, Nil), Node(4, Nil), 1) == Node(8, Nil);
    assert Fill(Node(4, Node(3, Nil)), Node(6, Node(4, Nil)), 0) == Node(0, Node(8, Nil));
  }

  lemma DemoOutput()
    ensures ToArray(Node(7, Node(0, Node(8, Nil)))) == [7, 0, 8]
  {
    assert ToArray(Node(8, Nil)) == [8];
    assert ToArray(Node(0, Node(8, Nil))) == [0, 8];
  }
}
