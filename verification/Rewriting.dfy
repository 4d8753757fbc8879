/** Listings of items that may be permuted across independent blocks, changed one item at a
    time, and thinned of ignored items: normal forms and what every rewrite keeps. */
module Rewriting {
  import opened Reachability

  datatype Reading<+E> = Rejected | Ignored | Kept(entry: E)

  /** How items are read, which block an entry belongs to, how an entry is shown as an item
      again, and which changes of a single item are permitted. */
  datatype Rules<!T(!new), !E(!new)> = Rules(
    read: T -> Reading<E>,
    block: E -> nat,
    show: E -> T,
    change: (T, T) -> bool)

  /** A change is reversible and unread, and leads every kept item to its shown entry. */
  ghost predicate Lawful<T(!new), E(!new)>(r: Rules<T, E>) {
    && (forall x, y :: r.change(x, y) ==> r.change(y, x))
    && (forall x, y :: r.change(x, y) ==> r.read(x) == r.read(y))
    && (forall x :: r.read(x).Kept? ==> Reach(r.change, x, r.show(r.read(x).entry)))
  }

  // ---------------------------------------------------------------------------------------
  // Rewrites of a listing

  ghost predicate Independent<T(!new), E(!new)>(r: Rules<T, E>, x: T, y: T) {
    r.read(x).Kept? && r.read(y).Kept? && r.block(r.read(x).entry) != r.block(r.read(y).entry)
  }

  /** The permitted rewrites: swap two neighbours of different blocks, change one item,
      drop or insert an ignored item. */
  ghost predicate Local<T(!new), E(!new)>(r: Rules<T, E>, m: seq<T>, m': seq<T>) {
    || (|m| == 2 && m' == [m[1], m[0]] && Independent(r, m[0], m[1]))
    || (|m| == 1 && |m'| == 1 && r.change(m[0], m'[0]))
    || (|m| == 1 && m' == [] && r.read(m[0]).Ignored?)
    || (|m'| == 1 && m == [] && r.read(m'[0]).Ignored?)
  }

  ghost predicate InContext<T>(p: seq<T>, m: seq<T>, m': seq<T>, s: seq<T>, a: seq<T>, b: seq<T>) {
    a == p + m + s && b == p + m' + s
  }

  ghost predicate Step<T(!new), E(!new)>(r: Rules<T, E>, a: seq<T>, b: seq<T>) {
    exists p, m, m', s :: InContext(p, m, m', s, a, b) && Local(r, m, m')
  }

  ghost function Steps<T(!new), E(!new)>(r: Rules<T, E>): (seq<T>, seq<T>) -> bool {
    (a, b) => Step(r, a, b)
  }

  lemma StepSymmetric<T(!new), E(!new)>(r: Rules<T, E>, a: seq<T>, b: seq<T>)
    requires Lawful(r) && Step(r, a, b)
    ensures Step(r, b, a)
  {
    var p, m, m', s :| InContext(p, m, m', s, a, b) && Local(r, m, m');
    assert InContext(p, m', m, s, b, a);
    assert Local(r, m', m) by {
      if |m| == 2 { assert m == [m'[1], m'[0]]; }
    }
  }

  lemma StepUnderPrefix<T(!new), E(!new)>(r: Rules<T, E>, x: T, a: seq<T>, b: seq<T>)
    requires Step(r, a, b)
    ensures Step(r, [x] + a, [x] + b)
  {
    var p, m, m', s :| InContext(p, m, m', s, a, b) && Local(r, m, m');
    assert [x] + a == [x] + p + m + s && [x] + b == [x] + p + m' + s;
    assert InContext([x] + p, m, m', s, [x] + a, [x] + b);
  }

  lemma ReachUnderPrefix<T(!new), E(!new)>(r: Rules<T, E>, x: T, a: seq<T>, b: seq<T>)
    requires Reach(Steps(r), a, b)
    ensures Reach(Steps(r), [x] + a, [x] + b)
  {
    forall c, d | Steps(r)(c, d) ensures Steps(r)([x] + c, [x] + d) { StepUnderPrefix(r, x, c, d); }
    Lift(Steps(r), Steps(r), (s: seq<T>) => [x] + s, a, b);
  }

  lemma StepAtHead<T(!new), E(!new)>(r: Rules<T, E>, m: seq<T>, m': seq<T>, rest: seq<T>)
    requires Local(r, m, m')
    ensures Step(r, m + rest, m' + rest)
  {
    assert [] + m == m && [] + m' == m';
    assert InContext([], m, m', rest, m + rest, m' + rest);
  }

  lemma ReachAtHead<T(!new), E(!new)>(r: Rules<T, E>, x: T, y: T, rest: seq<T>)
    requires Reach(r.change, x, y)
    ensures Reach(Steps(r), [x] + rest, [y] + rest)
  {
    var f := (z: T) => [z] + rest;
    forall c, d | r.change(c, d) ensures Steps(r)(f(c), f(d)) { StepAtHead(r, [c], [d], rest); }
    Lift(r.change, Steps(r), f, x, y);
  }

  // ---------------------------------------------------------------------------------------
  // Entries and blocks

  function EntryOf<E>(reading: Reading<E>): seq<E> {
    if reading.Kept? then [reading.entry] else []
  }

  function Entries<T(!new), E(!new)>(read: T -> Reading<E>, items: seq<T>): seq<E> {
    if items == [] then [] else EntryOf(read(items[0])) + Entries(read, items[1..])
  }

  /** The entries of one block, in listing order. */
  function Block<E>(block: E -> nat, es: seq<E>, k: nat): seq<E> {
    if es == [] then [] else (if block(es[0]) == k then [es[0]] else []) + Block(block, es[1..], k)
  }

  /** Blocks 0 to n-1, one after the other. */
  function Sort<E>(block: E -> nat, es: seq<E>, n: nat): seq<E> {
    if n == 0 then [] else Sort(block, es, n - 1) + Block(block, es, n - 1)
  }

  function ShowAll<T(!new), E(!new)>(r: Rules<T, E>, es: seq<E>): seq<T> {
    if es == [] then [] else [r.show(es[0])] + ShowAll(r, es[1..])
  }

  ghost predicate Readable<T(!new), E(!new)>(read: T -> Reading<E>, items: seq<T>) {
    forall item | item in items :: !read(item).Rejected?
  }

  lemma {:induction false} EntriesConcat<T(!new), E(!new)>(read: T -> Reading<E>, a: seq<T>, b: seq<T>)
    ensures Entries(read, a + b) == Entries(read, a) + Entries(read, b)
  {
    if a == [] {
      assert a + b == b;
    } else {
      assert (a + b)[1..] == a[1..] + b;
      EntriesConcat(read, a[1..], b);
    }
  }

  lemma EntriesOfThree<T(!new), E(!new)>(read: T -> Reading<E>, p: seq<T>, m: seq<T>, s: seq<T>)
    ensures Entries(read, p + m + s) == Entries(read, p) + Entries(read, m) + Entries(read, s)
  {
    EntriesConcat(read, p + m, s);
    EntriesConcat(read, p, m);
  }

  lemma {:induction false} BlockConcat<E>(block: E -> nat, a: seq<E>, b: seq<E>, k: nat)
    ensures Block(block, a + b, k) == Block(block, a, k) + Block(block, b, k)
  {
    if a == [] {
      assert a + b == b;
    } else {
      assert (a + b)[1..] == a[1..] + b;
      BlockConcat(block, a[1..], b, k);
      Reassociate(if block(a[0]) == k then [a[0]] else [], Block(block, a[1..], k), Block(block, b, k));
    }
  }

  lemma Reassociate<E>(a: seq<E>, b: seq<E>, c: seq<E>)
    ensures a + (b + c) == (a + b) + c
  {
  }

  /** Swapping two different neighbours of one block shows in that block. */
  lemma BlockSeesSwap<E>(block: E -> nat, p: seq<E>, x: E, y: E, s: seq<E>)
    requires block(x) == block(y) && x != y
    ensures Block(block, p + [x, y] + s, block(x)) != Block(block, p + [y, x] + s, block(x))
  {
    var k := block(x);
    BlockOfThree(block, p, [x, y], s, k);
    BlockOfThree(block, p, [y, x], s, k);
    var n := |Block(block, p, k)|;
    assert [x, y][1..] == [y] && [y, x][1..] == [x];
    assert Block(block, p + [x, y] + s, k)[n] == x;
    assert Block(block, p + [y, x] + s, k)[n] == y;
  }

  /** Removing or inserting an entry shows in its block. */
  lemma BlockSeesRemoval<E>(block: E -> nat, p: seq<E>, x: E, s: seq<E>)
    ensures Block(block, p + [x] + s, block(x)) != Block(block, p + s, block(x))
  {
    BlockOfThree(block, p, [x], s, block(x));
    BlockConcat(block, p, s, block(x));
    assert |Block(block, p + [x] + s, block(x))| == |Block(block, p + s, block(x))| + 1;
  }

  lemma BlockOfThree<E>(block: E -> nat, p: seq<E>, m: seq<E>, s: seq<E>, k: nat)
    ensures Block(block, p + m + s, k) == Block(block, p, k) + Block(block, m, k) + Block(block, s, k)
  {
    BlockConcat(block, p + m, s, k);
    BlockConcat(block, p, m, k);
  }

  lemma {:induction false} BlockSound<E>(block: E -> nat, es: seq<E>, k: nat)
    ensures forall e | e in Block(block, es, k) :: e in es && block(e) == k
  {
    if es != [] { BlockSound(block, es[1..], k); }
  }

  lemma {:induction false} SortSound<E>(block: E -> nat, es: seq<E>, n: nat)
    ensures forall e | e in Sort(block, es, n) :: e in es && block(e) < n
  {
    if n > 0 {
      SortSound(block, es, n - 1);
      BlockSound(block, es, n - 1);
    }
  }

  lemma {:induction false} ShowAllConcat<T(!new), E(!new)>(r: Rules<T, E>, a: seq<E>, b: seq<E>)
    ensures ShowAll(r, a + b) == ShowAll(r, a) + ShowAll(r, b)
  {
    if a == [] {
      assert a + b == b;
    } else {
      assert (a + b)[1..] == a[1..] + b;
      ShowAllConcat(r, a[1..], b);
    }
  }

  // ---------------------------------------------------------------------------------------
  // Soundness: a step keeps readability, and swaps at most two independent entries

  ghost predicate EntrySwap<E>(block: E -> nat, p: seq<E>, x: E, y: E, s: seq<E>, a: seq<E>, b: seq<E>) {
    block(x) != block(y) && a == p + [x, y] + s && b == p + [y, x] + s
  }

  ghost predicate EntryStep<E(!new)>(block: E -> nat, a: seq<E>, b: seq<E>) {
    a == b || exists p, x, y, s :: EntrySwap(block, p, x, y, s, a, b)
  }

  lemma StepOnEntries<T(!new), E(!new)>(r: Rules<T, E>, a: seq<T>, b: seq<T>)
    requires Lawful(r) && Readable(r.read, a) && Step(r, a, b)
    ensures Readable(r.read, b) && EntryStep(r.block, Entries(r.read, a), Entries(r.read, b))
  {
    var p, m, m', s :| InContext(p, m, m', s, a, b) && Local(r, m, m');
    EntriesOfThree(r.read, p, m, s);
    EntriesOfThree(r.read, p, m', s);
    forall item | item in b ensures !r.read(item).Rejected? {
      assert item in p || item in m' || item in s;
      assert item in p || item in s ==> item in a;
      if item in m' { LocalReadable(r, p, m, m', s, item); }
    }
    LocalEntries(r, m, m');
    if |m| == 2 {
      assert EntrySwap(r.block, Entries(r.read, p), r.read(m[0]).entry, r.read(m[1]).entry, Entries(r.read, s),
                       Entries(r.read, a), Entries(r.read, b));
    }
  }

  lemma LocalReadable<T(!new), E(!new)>(r: Rules<T, E>, p: seq<T>, m: seq<T>, m': seq<T>, s: seq<T>, item: T)
    requires Lawful(r) && Readable(r.read, p + m + s) && Local(r, m, m') && item in m'
    ensures !r.read(item).Rejected?
  {
    assert forall x | x in m :: x in p + m + s;
    if |m| == 1 && |m'| == 1 { assert r.read(m'[0]) == r.read(m[0]); }
  }

  lemma LocalEntries<T(!new), E(!new)>(r: Rules<T, E>, m: seq<T>, m': seq<T>)
    requires Lawful(r) && Local(r, m, m')
    ensures |m| != 2 ==> Entries(r.read, m) == Entries(r.read, m')
    ensures |m| == 2 ==> Independent(r, m[0], m[1])
    ensures |m| == 2 ==> Entries(r.read, m) == [r.read(m[0]).entry, r.read(m[1]).entry]
    ensures |m| == 2 ==> Entries(r.read, m') == [r.read(m[1]).entry, r.read(m[0]).entry]
  {
    if |m| == 2 {
      assert m[1..] == [m[1]] && m'[1..] == [m[0]];
      assert Entries(r.read, m[1..]) == [r.read(m[1]).entry] + Entries(r.read, []);
      assert Entries(r.read, m'[1..]) == [r.read(m[0]).entry] + Entries(r.read, []);
    } else if |m| == 1 {
      assert m == [m[0]];
    }
  }

  lemma BlocksAfterSwap<E>(block: E -> nat, p: seq<E>, x: E, y: E, s: seq<E>, k: nat)
    requires block(x) != block(y)
    ensures Block(block, p + [x, y] + s, k) == Block(block, p + [y, x] + s, k)
  {
    BlockConcat(block, p + [x, y], s, k);
    BlockConcat(block, p + [y, x], s, k);
    BlockConcat(block, p, [x, y], k);
    BlockConcat(block, p, [y, x], k);
    assert [x, y][1..] == [y] && [y, x][1..] == [x];
  }

  lemma BlocksAfterStep<E(!new)>(block: E -> nat, a: seq<E>, b: seq<E>, k: nat)
    requires EntryStep(block, a, b)
    ensures Block(block, a, k) == Block(block, b, k)
  {
    if a != b {
      var p, x, y, s :| EntrySwap(block, p, x, y, s, a, b);
      BlocksAfterSwap(block, p, x, y, s, k);
    }
  }

  /** Every run keeps each block as listed, and every property of entries that swaps keep. */
  lemma ReachKeeps<T(!new), E(!new)>(r: Rules<T, E>, keep: seq<E> -> bool, a: seq<T>, b: seq<T>, k: nat)
    requires Lawful(r) && Readable(r.read, a) && Reach(Steps(r), a, b)
    requires keep(Entries(r.read, a))
    requires forall x, y :: keep(x) && EntryStep(r.block, x, y) ==> keep(y)
    ensures Readable(r.read, b) && keep(Entries(r.read, b))
    ensures Block(r.block, Entries(r.read, b), k) == Block(r.block, Entries(r.read, a), k)
  {
    var was := Block(r.block, Entries(r.read, a), k);
    var inv := (s: seq<T>) =>
      Readable(r.read, s) && keep(Entries(r.read, s)) && Block(r.block, Entries(r.read, s), k) == was;
    forall x, y | inv(x) && Steps(r)(x, y) ensures inv(y) {
      StepOnEntries(r, x, y);
      BlocksAfterStep(r.block, Entries(r.read, x), Entries(r.read, y), k);
    }
    Invariant(Steps(r), inv, a, b);
  }

  // ---------------------------------------------------------------------------------------
  // Completeness: every listing reaches its sorted entries, shown as items

  ghost predicate Genuine<T(!new), E(!new)>(r: Rules<T, E>, e: E) {
    r.read(r.show(e)) == Kept(e)
  }

  lemma ShownIsGenuine<T(!new), E(!new)>(r: Rules<T, E>, x: T)
    requires Lawful(r) && r.read(x).Kept?
    ensures Genuine(r, r.read(x).entry)
  {
    var reading := r.read(x);
    Invariant(r.change, y => r.read(y) == reading, x, r.show(reading.entry));
  }

  /** The head of a listing is dropped or normalised in place. */
  lemma HeadReached<T(!new), E(!new)>(r: Rules<T, E>, x: T, rest: seq<E>)
    requires Lawful(r) && !r.read(x).Rejected?
    ensures Reach(Steps(r), [x] + ShowAll(r, rest), ShowAll(r, EntryOf(r.read(x)) + rest))
  {
    var out := ShowAll(r, rest);
    if r.read(x).Ignored? {
      StepAtHead(r, [x], [], out);
      assert [] + out == out && EntryOf(r.read(x)) + rest == rest;
      One(Steps(r), [x] + out, out);
    } else {
      var e := r.read(x).entry;
      ReachAtHead(r, x, r.show(e), out);
      assert ([e] + rest)[1..] == rest;
    }
  }

  lemma {:induction false} ShowReached<T(!new), E(!new)>(r: Rules<T, E>, items: seq<T>)
    requires Lawful(r) && Readable(r.read, items)
    ensures Reach(Steps(r), items, ShowAll(r, Entries(r.read, items)))
  {
    if items == [] {
      Stay(Steps(r), items);
    } else {
      var (x, rest) := (items[0], items[1..]);
      var es := Entries(r.read, rest);
      ShowReached(r, rest);
      ReachUnderPrefix(r, x, rest, ShowAll(r, es));
      assert [x] + rest == items;
      HeadReached(r, x, es);
      Transitive(Steps(r), items, [x] + ShowAll(r, es), ShowAll(r, Entries(r.read, items)));
    }
  }

  lemma {:induction false} EntriesGenuine<T(!new), E(!new)>(r: Rules<T, E>, items: seq<T>)
    requires Lawful(r)
    ensures forall e | e in Entries(r.read, items) :: Genuine(r, e)
  {
    if items != [] {
      EntriesGenuine(r, items[1..]);
      if r.read(items[0]).Kept? { ShownIsGenuine(r, items[0]); }
    }
  }

  /** An entry moves right past entries of other blocks. */
  lemma {:induction false} MoveReached<T(!new), E(!new)>(r: Rules<T, E>, x: E, over: seq<E>, rest: seq<T>)
    requires Genuine(r, x) && forall e | e in over :: Genuine(r, e) && r.block(x) != r.block(e)
    ensures Reach(Steps(r), [r.show(x)] + ShowAll(r, over) + rest, ShowAll(r, over) + [r.show(x)] + rest)
  {
    var sx := r.show(x);
    if over == [] {
      assert [sx] + [] + rest == [] + [sx] + rest;
      Stay(Steps(r), [sx] + [] + rest);
    } else {
      var (sy, tail) := (r.show(over[0]), ShowAll(r, over[1..]));
      MoveReached(r, x, over[1..], rest);
      ReachUnderPrefix(r, sy, [sx] + tail + rest, tail + [sx] + rest);
      assert over[0] in over && Independent(r, sx, sy);
      assert Local(r, [sx, sy], [[sx, sy][1], [sx, sy][0]]);
      MoveOne(r, sx, sy, tail, rest);
      Transitive(Steps(r), [sx] + ([sy] + tail) + rest, [sy] + ([sx] + tail + rest), [sy] + (tail + [sx] + rest));
      assert [sy] + (tail + [sx] + rest) == [sy] + tail + [sx] + rest;
    }
  }

  lemma MoveOne<T(!new), E(!new)>(r: Rules<T, E>, sx: T, sy: T, tail: seq<T>, rest: seq<T>)
    requires Local(r, [sx, sy], [sy, sx])
    ensures Reach(Steps(r), [sx] + ([sy] + tail) + rest, [sy] + ([sx] + tail + rest))
  {
    StepAtHead(r, [sx, sy], [sy, sx], tail + rest);
    assert [sx, sy] + (tail + rest) == [sx] + ([sy] + tail) + rest;
    assert [sy, sx] + (tail + rest) == [sy] + ([sx] + tail + rest);
    One(Steps(r), [sx] + ([sy] + tail) + rest, [sy] + ([sx] + tail + rest));
  }

  lemma BlockSkip<E>(block: E -> nat, x: E, rest: seq<E>, k: nat)
    requires block(x) != k
    ensures Block(block, [x] + rest, k) == Block(block, rest, k)
  {
    assert ([x] + rest)[1..] == rest;
  }

  lemma BlockHead<E>(block: E -> nat, x: E, rest: seq<E>)
    ensures Block(block, [x] + rest, block(x)) == [x] + Block(block, rest, block(x))
  {
    assert ([x] + rest)[1..] == rest;
  }

  lemma {:induction false} SortWithout<E>(block: E -> nat, x: E, rest: seq<E>, n: nat)
    requires n <= block(x)
    ensures Sort(block, [x] + rest, n) == Sort(block, rest, n)
  {
    if n > 0 {
      BlockSkip(block, x, rest, n - 1);
      SortWithout(block, x, rest, n - 1);
    }
  }

  /** Blocks `k` to `n-1`. */
  function SortFrom<E>(block: E -> nat, es: seq<E>, k: nat, n: nat): seq<E>
    requires k <= n
    decreases n - k
  {
    if k == n then [] else Block(block, es, k) + SortFrom(block, es, k + 1, n)
  }

  lemma {:induction false} SortSplit<E>(block: E -> nat, es: seq<E>, k: nat, n: nat)
    requires k <= n
    ensures Sort(block, es, n) == Sort(block, es, k) + SortFrom(block, es, k, n)
    decreases n - k
  {
    if k < n {
      SortSplit(block, es, k + 1, n);
      assert Sort(block, es, k + 1) == Sort(block, es, k) + Block(block, es, k);
    }
  }

  lemma {:induction false} SortFromWithout<E>(block: E -> nat, x: E, rest: seq<E>, k: nat, n: nat)
    requires block(x) < k <= n
    ensures SortFrom(block, [x] + rest, k, n) == SortFrom(block, rest, k, n)
    decreases n - k
  {
    if k < n {
      BlockSkip(block, x, rest, k);
      SortFromWithout(block, x, rest, k + 1, n);
    }
  }

  /** Sorting `[x] + rest` puts `x` in front of its block of the sorted rest. */
  lemma SortInsert<E>(block: E -> nat, x: E, rest: seq<E>, n: nat)
    requires block(x) < n
    ensures Sort(block, [x] + rest, n) ==
      Sort(block, rest, block(x)) + [x] + SortFrom(block, rest, block(x), n)
  {
    var k := block(x);
    SortSplit(block, [x] + rest, k, n);
    SortWithout(block, x, rest, k);
    SortFromWithout(block, x, rest, k + 1, n);
    BlockHead(block, x, rest);
    InsertGroups(Sort(block, rest, k), x, Block(block, rest, k), SortFrom(block, rest, k + 1, n));
  }

  lemma InsertGroups<E>(front: seq<E>, x: E, middle: seq<E>, back: seq<E>)
    ensures front + (([x] + middle) + back) == front + [x] + (middle + back)
  {
  }

  lemma {:induction false} SortEmpty<E>(block: E -> nat, n: nat)
    ensures Sort(block, [], n) == []
  {
    if n > 0 { SortEmpty(block, n - 1); }
  }

  lemma {:induction false} SortReached<T(!new), E(!new)>(r: Rules<T, E>, es: seq<E>, n: nat)
    requires forall e | e in es :: Genuine(r, e) && r.block(e) < n
    ensures Reach(Steps(r), ShowAll(r, es), ShowAll(r, Sort(r.block, es, n)))
  {
    if es == [] {
      SortEmpty(r.block, n);
      Stay(Steps(r), ShowAll(r, es));
    } else {
      SortReached(r, es[1..], n);
      InsertReached(r, es[0], es[1..], n);
      ReachUnderPrefix(r, r.show(es[0]), ShowAll(r, es[1..]), ShowAll(r, Sort(r.block, es[1..], n)));
      assert [es[0]] + es[1..] == es;
      Transitive(Steps(r), ShowAll(r, es), [r.show(es[0])] + ShowAll(r, Sort(r.block, es[1..], n)),
                 ShowAll(r, Sort(r.block, es, n)));
    }
  }

  lemma InsertReached<T(!new), E(!new)>(r: Rules<T, E>, x: E, rest: seq<E>, n: nat)
    requires Genuine(r, x) && r.block(x) < n && forall e | e in rest :: Genuine(r, e)
    ensures Reach(Steps(r), [r.show(x)] + ShowAll(r, Sort(r.block, rest, n)), ShowAll(r, Sort(r.block, [x] + rest, n)))
  {
    var k := r.block(x);
    var (over, after) := (Sort(r.block, rest, k), SortFrom(r.block, rest, k, n));
    SortInsert(r.block, x, rest, n);
    SortSplit(r.block, rest, k, n);
    SortSound(r.block, rest, k);
    MoveReached(r, x, over, ShowAll(r, after));
    ShowAround(r, x, over, after);
  }

  lemma ShowAround<T(!new), E(!new)>(r: Rules<T, E>, x: E, over: seq<E>, after: seq<E>)
    ensures [r.show(x)] + ShowAll(r, over + after) == [r.show(x)] + ShowAll(r, over) + ShowAll(r, after)
    ensures ShowAll(r, over + [x] + after) == ShowAll(r, over) + [r.show(x)] + ShowAll(r, after)
  {
    ShowAllConcat(r, over, after);
    ShowAllConcat(r, over + [x], after);
    ShowAllConcat(r, over, [x]);
    assert ShowAll(r, [x]) == [r.show(x)] + ShowAll(r, []);
  }

  /** The sorted listing of four blocks. */
  lemma ShowFour<T(!new), E(!new)>(r: Rules<T, E>, es: seq<E>)
    ensures ShowAll(r, Sort(r.block, es, 4)) ==
      (ShowAll(r, Block(r.block, es, 0)) + ShowAll(r, Block(r.block, es, 1)))
      + (ShowAll(r, Block(r.block, es, 2)) + ShowAll(r, Block(r.block, es, 3)))
  {
    ShowNext(r, es, 0);
    ShowNext(r, es, 1);
    ShowNext(r, es, 2);
    ShowNext(r, es, 3);
    var (b0, b1) := (ShowAll(r, Block(r.block, es, 0)), ShowAll(r, Block(r.block, es, 1)));
    var (b2, b3) := (ShowAll(r, Block(r.block, es, 2)), ShowAll(r, Block(r.block, es, 3)));
    Regroup(b0, b1, b2, b3);
  }

  lemma Regroup<T>(b0: seq<T>, b1: seq<T>, b2: seq<T>, b3: seq<T>)
    ensures [] + b0 + b1 + b2 + b3 == (b0 + b1) + (b2 + b3)
  {
  }

  lemma ShowNext<T(!new), E(!new)>(r: Rules<T, E>, es: seq<E>, k: nat)
    ensures ShowAll(r, Sort(r.block, es, k + 1)) == ShowAll(r, Sort(r.block, es, k)) + ShowAll(r, Block(r.block, es, k))
  {
    ShowAllConcat(r, Sort(r.block, es, k), Block(r.block, es, k));
  }

  /** Every readable listing reaches the sorted listing of its entries. */
  lemma NormalReached<T(!new), E(!new)>(r: Rules<T, E>, items: seq<T>, n: nat)
    requires Lawful(r) && Readable(r.read, items) && forall e :: r.block(e) < n
    ensures Reach(Steps(r), items, ShowAll(r, Sort(r.block, Entries(r.read, items), n)))
  {
    ShowReached(r, items);
    EntriesGenuine(r, items);
    SortReached(r, Entries(r.read, items), n);
    Transitive(Steps(r), items, ShowAll(r, Entries(r.read, items)),
               ShowAll(r, Sort(r.block, Entries(r.read, items), n)));
  }

  /** Listings with a common normal form are connected. */
  lemma Connected<T(!new), E(!new)>(r: Rules<T, E>, a: seq<T>, b: seq<T>, normal: seq<T>)
    requires Lawful(r) && Reach(Steps(r), a, normal) && Reach(Steps(r), b, normal)
    ensures Reach(Steps(r), a, b)
  {
    forall x, y | Steps(r)(x, y) ensures Steps(r)(y, x) { StepSymmetric(r, x, y); }
    Symmetric(Steps(r), b, normal);
    Transitive(Steps(r), a, normal, b);
  }
}
