/** The read/write spin lock as a protocol of atomic steps of any number of threads below 2^31. */
module RwLock {

  const WBIT := 0x8000_0000
  const WORD := 0x1_0000_0000

  /** Where a thread stands between two atomic operations on the lock word. */
  datatype Pc =
    | Idle
    | WantRead    // about to fetch-and-add in unvme_lockr
    | BackOff     // counted itself while the write bit was set, about to fetch-and-sub
    | ReadHeld
    | WantWrite   // about to fetch-and-or in unvme_lockw
    | Drain       // set the write bit itself, waiting for the readers to leave
    | WriteHeld

  datatype State = State(word: nat, pcs: seq<Pc>)

  ghost predicate Init(s: State) {
    s.word == 0 && |s.pcs| < WBIT && forall i :: 0 <= i < |s.pcs| ==> s.pcs[i] == Idle
  }

  // The four atomic read-modify-write operations on a 32-bit word.

  function FetchAdd(w: nat): nat { (w + 1) % WORD }

  function FetchSub(w: nat): nat { (w + WORD - 1) % WORD }

  function FetchOr(w: nat): nat { if w % WORD >= WBIT then w else w + WBIT }

  function FetchAnd(w: nat): nat { if w % WORD >= WBIT then w - WBIT else w }

  predicate Writing(w: nat) { w % WORD >= WBIT }

  /** One atomic step of thread i, together with the local computation up to its next one. */
  ghost predicate Step(s: State, t: State, i: nat) {
    && i < |s.pcs| && |t.pcs| == |s.pcs|
    && t.pcs == s.pcs[i := t.pcs[i]]
    && Moves(s.word, s.pcs[i], t.word, t.pcs[i])
  }

  ghost predicate Moves(w: nat, pc: Pc, w': nat, pc': Pc) {
    match pc
    case Idle => w' == w && pc' in {WantRead, WantWrite}
    case WantRead => w' == FetchAdd(w) && pc' == if Writing(w) then BackOff else ReadHeld
    case BackOff => w' == FetchSub(w) && pc' == WantRead
    case ReadHeld => w' == FetchSub(w) && pc' == Idle
    case WantWrite => w' == FetchOr(w) && pc' == if w == 0 then WriteHeld else if Writing(w) then WantWrite else Drain
    case Drain => w' == w && pc' == if w == WBIT then WriteHeld else Drain
    case WriteHeld => w' == FetchAnd(w) && pc' == Idle
  }

  // ----- counting threads

  function Counted(pc: Pc): nat { if pc.BackOff? || pc.ReadHeld? then 1 else 0 }

  function Owner(pc: Pc): nat { if pc.Drain? || pc.WriteHeld? then 1 else 0 }

  function Backing(pc: Pc): nat { if pc.BackOff? then 1 else 0 }

  function Total(pcs: seq<Pc>, f: Pc -> nat): nat {
    if pcs == [] then 0 else f(pcs[0]) + Total(pcs[1..], f)
  }

  lemma TotalUpdate(pcs: seq<Pc>, f: Pc -> nat, i: nat, pc: Pc)
    requires i < |pcs|
    ensures Total(pcs[i := pc], f) == Total(pcs, f) - f(pcs[i]) + f(pc)
  {
    if i > 0 {
      assert pcs[i := pc][1..] == pcs[1..][i - 1 := pc];
      TotalUpdate(pcs[1..], f, i - 1, pc);
    }
  }

  lemma TotalBounds(pcs: seq<Pc>, f: Pc -> nat)
    requires forall pc :: f(pc) <= 1
    ensures Total(pcs, f) <= |pcs|
    ensures forall i :: 0 <= i < |pcs| ==> f(pcs[i]) <= Total(pcs, f)
    ensures Total(pcs, f) > 0 ==> exists i :: 0 <= i < |pcs| && f(pcs[i]) == 1
  {
  }

  lemma TotalPair(pcs: seq<Pc>, f: Pc -> nat, i: nat, j: nat)
    requires i < j < |pcs|
    ensures f(pcs[i]) + f(pcs[j]) <= Total(pcs, f)
  {
    if i > 0 {
      TotalPair(pcs[1..], f, i - 1, j - 1);
    } else {
      TotalAtLeast(pcs[1..], f, j - 1);
    }
  }

  lemma TotalAtLeast(pcs: seq<Pc>, f: Pc -> nat, i: nat)
    requires i < |pcs|
    ensures f(pcs[i]) <= Total(pcs, f)
  {
    if i > 0 { TotalAtLeast(pcs[1..], f, i - 1); }
  }

  lemma TotalZero(pcs: seq<Pc>, f: Pc -> nat)
    requires forall i :: 0 <= i < |pcs| ==> f(pcs[i]) == 0
    ensures Total(pcs, f) == 0
  {
  }

  // ----- the invariant

  ghost predicate Inv(s: State) {
    && |s.pcs| < WBIT
    && Total(s.pcs, Owner) <= 1
    && s.word == WBIT * Total(s.pcs, Owner) + Total(s.pcs, Counted)
    && forall i, j :: 0 <= i < |s.pcs| && 0 <= j < |s.pcs| && s.pcs[i] == WriteHeld ==> s.pcs[j] != ReadHeld
  }

  lemma InitInv(s: State)
    requires Init(s)
    ensures Inv(s)
  {
    TotalZero(s.pcs, Owner);
    TotalZero(s.pcs, Counted);
  }

  lemma StepInv(s: State, t: State, i: nat)
    requires Inv(s) && Step(s, t, i)
    ensures Inv(t)
  {
    TotalsAfter(s, t, i);
    TotalBounds(s.pcs, Counted);
    TotalBounds(s.pcs, Owner);
    TotalBounds(t.pcs, Counted);
    WordAfter(s.word, s.pcs[i], t.word, t.pcs[i], Total(s.pcs, Owner), Total(s.pcs, Counted));
  }

  lemma TotalsAfter(s: State, t: State, i: nat)
    requires Step(s, t, i)
    ensures Total(t.pcs, Counted) == Total(s.pcs, Counted) - Counted(s.pcs[i]) + Counted(t.pcs[i])
    ensures Total(t.pcs, Owner) == Total(s.pcs, Owner) - Owner(s.pcs[i]) + Owner(t.pcs[i])
  {
    TotalUpdate(s.pcs, Counted, i, t.pcs[i]);
    TotalUpdate(s.pcs, Owner, i, t.pcs[i]);
  }

  /** The arithmetic of one step: no carry into the write bit, no borrow from it. */
  lemma WordAfter(w: nat, pc: Pc, w': nat, pc': Pc, owners: nat, counted: nat)
    requires Moves(w, pc, w', pc') && owners <= 1 && counted < WBIT && w == WBIT * owners + counted
    requires Owner(pc) <= owners && Counted(pc) <= counted
    requires counted - Counted(pc) + Counted(pc') < WBIT
    ensures w' == WBIT * (owners - Owner(pc) + Owner(pc')) + counted - Counted(pc) + Counted(pc')
    ensures 0 <= owners - Owner(pc) + Owner(pc') <= 1
    ensures pc' == ReadHeld && pc != ReadHeld ==> owners == 0
    ensures pc' == WriteHeld && pc != WriteHeld ==> counted == 0
  {
  }

  // ----- runs

  ghost predicate Next(s: State, t: State) {
    exists i :: Step(s, t, i)
  }

  ghost predicate Run(ss: seq<State>)
    decreases |ss|
  {
    |ss| > 0 && (|ss| == 1 || (Next(ss[0], ss[1]) && Run(ss[1..])))
  }

  lemma {:induction false} RunInv(ss: seq<State>)
    requires Run(ss) && Inv(ss[0])
    ensures Inv(ss[|ss| - 1])
    decreases |ss|
  {
    if |ss| > 1 {
      var i :| Step(ss[0], ss[1], i);
      StepInv(ss[0], ss[1], i);
      RunInv(ss[1..]);
    }
  }

  ghost predicate Reachable(s: State) {
    exists ss :: Run(ss) && Init(ss[0]) && s == ss[|ss| - 1]
  }

  lemma ReachableInv(s: State)
    requires Reachable(s)
    ensures Inv(s)
  {
    var ss :| Run(ss) && Init(ss[0]) && s == ss[|ss| - 1];
    InitInv(ss[0]);
    RunInv(ss);
  }

  predicate Holds(pc: Pc) { pc.ReadHeld? || pc.WriteHeld? }

  predicate Wants(pc: Pc) { pc.WantRead? || pc.BackOff? || pc.WantWrite? || pc.Drain? }

  lemma OneOwner(s: State, i: nat, j: nat)
    requires Inv(s) && i < |s.pcs| && j < |s.pcs|
    requires Owner(s.pcs[i]) == 1 && Owner(s.pcs[j]) == 1
    ensures i == j
  {
    if i < j { TotalPair(s.pcs, Owner, i, j); }
    if j < i { TotalPair(s.pcs, Owner, j, i); }
  }

  /** In every reachable state a thread that holds the lock for writing holds it alone. */
  lemma Exclusion(s: State, i: nat, j: nat)
    requires Reachable(s) && i < |s.pcs| && j < |s.pcs| && i != j && s.pcs[i] == WriteHeld
    ensures !Holds(s.pcs[j])
  {
    ReachableInv(s);
    if s.pcs[j] == WriteHeld { OneOwner(s, i, j); }
  }

  /** The write bit, bit 31, is set exactly when a thread owns it, never two; the low bits count the
      readers that hold the lock together with those backing out. */
  lemma WordMeaning(s: State)
    requires Reachable(s)
    ensures s.word < 0x1_0000_0000
    ensures s.word >= 0x8000_0000 <==> exists i :: 0 <= i < |s.pcs| && Owner(s.pcs[i]) == 1
    ensures forall i: nat, j: nat :: i < |s.pcs| && j < |s.pcs| && Owner(s.pcs[i]) == 1 && Owner(s.pcs[j]) == 1 ==> i == j
    ensures s.word % 0x8000_0000 == Total(s.pcs, Counted)
  {
    hide Reachable;
    ReachableInv(s);
    OwnerTotal(s);
    assert Total(s.pcs, Counted) <= |s.pcs| by { TotalBounds(s.pcs, Counted); }
    forall i: nat, j: nat | i < |s.pcs| && j < |s.pcs| && Owner(s.pcs[i]) == 1 && Owner(s.pcs[j]) == 1 ensures i == j {
      OneOwner(s, i, j);
    }
  }

  lemma OwnerTotal(s: State)
    requires Inv(s)
    ensures Total(s.pcs, Owner) == 1 <==> exists i :: 0 <= i < |s.pcs| && Owner(s.pcs[i]) == 1
  {
    TotalBounds(s.pcs, Owner);
  }

  /** Some thread owns the write bit. */
  ghost predicate Owned(s: State) {
    exists i :: 0 <= i < |s.pcs| && Owner(s.pcs[i]) == 1
  }

  /** Some thread is counted as a reader: it holds the lock or is backing out. */
  ghost predicate Counting(s: State) {
    exists i :: 0 <= i < |s.pcs| && Counted(s.pcs[i]) == 1
  }

  lemma WordTells(s: State)
    requires Inv(s)
    ensures Writing(s.word) <==> Owned(s)
    ensures s.word % WBIT == Total(s.pcs, Counted) && (Total(s.pcs, Counted) > 0 <==> Counting(s))
    ensures s.word == 0 <==> !Owned(s) && !Counting(s)
    ensures s.word == WBIT <==> Owned(s) && !Counting(s)
  {
    OwnerTotal(s);
    TotalBounds(s.pcs, Counted);
  }

  /** What every step comes to, in terms of what the other threads are doing.  A reader gets the lock
      exactly if no thread owns the write bit, and backs out if one does.  A writer gets the lock at
      once exactly if nobody owns the bit or is counted; if there are only readers it becomes the
      owner in that very step, and has the lock as soon as nobody is counted; whatever it finds, the
      word announces a writer afterwards. */
  lemma StepMeaning(s: State, t: State, i: nat)
    requires Reachable(s) && Step(s, t, i)
    ensures match s.pcs[i]
            case Idle => t.word == s.word && t.pcs[i] in {WantRead, WantWrite}
            case WantRead => t.pcs[i] == if Owned(s) then BackOff else ReadHeld
            case BackOff => t.pcs[i] == WantRead
            case ReadHeld => t.pcs[i] == Idle
            case WantWrite => t.pcs[i] == if Owned(s) then WantWrite else if Counting(s) then Drain else WriteHeld
            case Drain => t.pcs[i] == if Counting(s) then Drain else WriteHeld
            case WriteHeld => t.pcs[i] == Idle
    ensures s.pcs[i] == WantWrite ==> Writing(t.word)
    ensures Writing(t.word) <==> Owned(t)
    ensures t.word % WBIT == Total(t.pcs, Counted)
  {
    hide Reachable, Inv, Step;
    ReachableInv(s);
    WordTells(s);
    StepInv(s, t, i);
    WordTells(t);
    OneStep(s, t, i);
  }

  lemma OneStep(s: State, t: State, i: nat)
    requires Step(s, t, i)
    ensures i < |s.pcs| && i < |t.pcs| && Moves(s.word, s.pcs[i], t.word, t.pcs[i])
    ensures Owner(s.pcs[i]) == 1 ==> Owned(s)
    ensures forall j :: 0 <= j < |s.pcs| && j != i ==> t.pcs[j] == s.pcs[j]
  {
  }

  /** While a thread owns the write bit no step of any thread gives the lock to a new reader. */
  lemma NoNewReader(s: State, t: State, i: nat, j: nat)
    requires Inv(s) && Owned(s) && Step(s, t, i) && j < |t.pcs| && t.pcs[j] == ReadHeld
    ensures s.pcs[j] == ReadHeld
  {
    WordTells(s);
  }

  /** Writer priority over whole runs: as long as a thread owns the write bit, the readers that hold
      the lock are among those that held it when it became the owner. */
  lemma {:induction false} WriterPriority(ss: seq<State>, k: nat, j: nat)
    requires Run(ss) && Inv(ss[0]) && k < |ss[0].pcs|
    requires forall x :: 0 <= x < |ss| ==> |ss[x].pcs| == |ss[0].pcs| && Owner(ss[x].pcs[k]) == 1
    requires j < |ss[0].pcs| && ss[|ss| - 1].pcs[j] == ReadHeld
    ensures forall x :: 0 <= x < |ss| ==> ss[x].pcs[j] == ReadHeld
    decreases |ss|
  {
    hide Inv, Step, Moves;
    if |ss| > 1 {
      var i :| Step(ss[0], ss[1], i);
      StepInv(ss[0], ss[1], i);
      WriterPriority(ss[1..], k, j);
      assert Owned(ss[0]);
      NoNewReader(ss[0], ss[1], i, j);
    }
  }

  /** When all threads are idle the word is 0. */
  lemma IdleWord(s: State)
    requires Reachable(s) && forall i :: 0 <= i < |s.pcs| ==> s.pcs[i].Idle?
    ensures s.word == 0
  {
    ReachableInv(s);
    TotalZero(s.pcs, Owner);
    TotalZero(s.pcs, Counted);
  }

  ghost predicate IdleKept(s: State, t: State) {
    |t.pcs| == |s.pcs| && forall i :: 0 <= i < |s.pcs| && s.pcs[i].Idle? ==> t.pcs[i].Idle?
  }

  /** From every state where nobody holds the lock and somebody wants it, the steps of the
      contenders alone can give it to one of them: one step for every reader that has to back
      out, and one more.  No thread that was idle takes part. */
  lemma {:induction false} NoWedge(s: State) returns (ss: seq<State>, k: nat)
    requires Inv(s)
    requires forall i :: 0 <= i < |s.pcs| ==> !Holds(s.pcs[i])
    requires exists i :: 0 <= i < |s.pcs| && Wants(s.pcs[i])
    ensures Run(ss) && ss[0] == s && |ss| == Total(s.pcs, Backing) + 2
    ensures var t := ss[|ss| - 1]; k < |s.pcs| && k < |t.pcs| && Wants(s.pcs[k]) && Holds(t.pcs[k])
    ensures forall j :: 0 <= j < |ss| ==> IdleKept(s, ss[j])
    decreases Total(s.pcs, Backing)
  {
    hide Step, Inv, Moves;
    if Total(s.pcs, Backing) > 0 {
      var t, i := LeaveStep(s);
      var rest;
      rest, k := NoWedge(t);
      ss := [s] + rest;
      assert ss[1..] == rest;
      assert forall j :: 0 <= j < |rest| ==> IdleKept(t, rest[j]);
      assert forall j :: 1 <= j < |ss| ==> ss[j] == rest[j - 1];
    } else {
      TotalBounds(s.pcs, Backing);
      var t;
      t, k := LastStep(s);
      ss := [s, t];
      assert ss[1..] == [t];
    }
  }

  /** A reader that saw the write bit takes its count back and tries again. */
  lemma LeaveStep(s: State) returns (t: State, i: nat)
    requires Inv(s) && Total(s.pcs, Backing) > 0
    requires forall j :: 0 <= j < |s.pcs| ==> !Holds(s.pcs[j])
    ensures Step(s, t, i) && Inv(t) && IdleKept(s, t) && i < |t.pcs| && Wants(t.pcs[i])
    ensures Total(t.pcs, Backing) == Total(s.pcs, Backing) - 1
    ensures forall j :: 0 <= j < |t.pcs| ==> !Holds(t.pcs[j])
    ensures forall j :: 0 <= j < |t.pcs| && Wants(t.pcs[j]) ==> Wants(s.pcs[j])
  {
    TotalBounds(s.pcs, Backing);
    i :| 0 <= i < |s.pcs| && Backing(s.pcs[i]) == 1;
    t := State(FetchSub(s.word), s.pcs[i := WantRead]);
    StepInv(s, t, i);
    TotalUpdate(s.pcs, Backing, i, WantRead);
  }

  lemma LastStep(s: State) returns (t: State, k: nat)
    requires Inv(s)
    requires forall i :: 0 <= i < |s.pcs| ==> !Holds(s.pcs[i]) && s.pcs[i] != BackOff
    requires exists i :: 0 <= i < |s.pcs| && Wants(s.pcs[i])
    ensures Step(s, t, k) && k < |s.pcs| == |t.pcs| && Wants(s.pcs[k]) && Holds(t.pcs[k]) && IdleKept(s, t)
  {
    TotalBounds(s.pcs, Owner);
    TotalZero(s.pcs, Counted);
    if Total(s.pcs, Owner) > 0 {
      k :| 0 <= k < |s.pcs| && Owner(s.pcs[k]) == 1;
      t := State(s.word, s.pcs[k := WriteHeld]);
    } else {
      k :| 0 <= k < |s.pcs| && Wants(s.pcs[k]);
      t := if s.pcs[k] == WantRead then State(FetchAdd(s.word), s.pcs[k := ReadHeld])
           else State(FetchOr(s.word), s.pcs[k := WriteHeld]);
    }
  }
}
