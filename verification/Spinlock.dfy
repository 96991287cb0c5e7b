/**
 The latch-and-lock spinlock as a transition system: any number of callers, one step per
 atomic operation on the 32-bit word. A caller is one call of `read` or `write` together
 with the guard it returns, so a thread that holds several guards is several callers.
 */
module Spinlock {

  type Tid = nat

  const LATCH_FLAG: nat := 0x4000_0000
  const LOCK_FLAG: nat := 0x8000_0000
  const READERS_MAX: nat := 0x3FFF_FFFF
  const WORD: nat := 0x1_0000_0000

  /** The low 30 bits: `word & READERS_FLAG`. */
  function Readers(word: nat): nat {
    word % LATCH_FLAG
  }

  /** Bit 30: `word & LATCH_FLAG != 0`. */
  predicate Latched(word: nat) {
    word / LATCH_FLAG % 2 == 1
  }

  /** Bit 31: `word & LOCK_FLAG != 0`. */
  predicate Locked(word: nat) {
    word / LOCK_FLAG % 2 == 1
  }

  /** `word | LATCH_FLAG`. */
  function SetLatch(word: nat): nat {
    if Latched(word) then word else word + LATCH_FLAG
  }

  /** `word | LOCK_FLAG`. */
  function SetLock(word: nat): nat {
    if Locked(word) then word else word + LOCK_FLAG
  }

  /** Where a caller stands, with the word it has loaded and not yet used. */
  datatype Pc =
    | Idle
    | ReadLoad                 // about to load, in `read`
    | ReadCas(seen: nat)        // about to count itself in
    | Reading                  // holds a read guard
    | LatchLoad                // about to load, in the first loop of `write`
    | LatchCas(seen: nat)       // about to latch
    | LockLoad                 // latched, about to load, in the second loop
    | LockCas(seen: nat)        // about to lock
    | Writing                  // holds a write guard
    | Unlock(seen: nat)         // in the guard's drop, about to clear the word
    | Panicked

  datatype State<T> = State(word: nat, value: T, pcs: map<Tid, Pc>)

  function Goto<T>(s: State<T>, t: Tid, pc: Pc): State<T> {
    s.(pcs := s.pcs[t := pc])
  }

  datatype Action<T> =
    | CallRead
    | CallWrite
    | Go             // the next atomic operation of `read`, `write` or a drop
    | Store(v: T)    // through a write guard
    | Release        // begin dropping the guard

  /** Which steps a caller can take. */
  predicate Enabled<T>(s: State<T>, t: Tid, a: Action<T>) {
    t in s.pcs &&
    match a
    case CallRead => s.pcs[t].Idle?
    case CallWrite => s.pcs[t].Idle?
    case Go => !s.pcs[t].Idle? && !s.pcs[t].Reading? && !s.pcs[t].Writing? && !s.pcs[t].Panicked?
    case Store(_) => s.pcs[t].Writing?
    case Release => s.pcs[t].Reading? || s.pcs[t].Writing?
  }

  /** One atomic operation of one caller, with the branch that follows it. */
  function Step<T>(s: State<T>, t: Tid, a: Action<T>): State<T>
    requires Enabled(s, t, a)
  {
    var w := s.word;
    match a
    case CallRead => Goto(s, t, ReadLoad)
    case CallWrite => Goto(s, t, LatchLoad)
    case Store(v) => s.(value := v)
    case Release =>
      if s.pcs[t].Reading? then Goto(s.(word := (w + WORD - 1) % WORD), t, Idle)
      else if Readers(w) > 0 then Goto(s, t, Panicked)
      else Goto(s, t, Unlock(w))
    case Go =>
      match s.pcs[t]
      case ReadLoad => if !Latched(w) && !Locked(w) then Goto(s, t, ReadCas(w)) else s
      case ReadCas(seen) => if w == seen then Goto(s.(word := (seen + 1) % WORD), t, Reading) else Goto(s, t, ReadLoad)
      case LatchLoad =>
        if Latched(w) then s
        else if Locked(w) then Goto(s, t, Panicked)
        else Goto(s, t, LatchCas(w))
      case LatchCas(seen) => if w == seen then Goto(s.(word := SetLatch(seen)), t, LockLoad) else Goto(s, t, LatchLoad)
      case LockLoad => if Readers(w) == 0 then Goto(s, t, LockCas(w)) else s
      case LockCas(seen) => if w == seen then Goto(s.(word := SetLock(seen)), t, Writing) else Goto(s, t, Panicked)
      case Unlock(seen) => if w == seen then Goto(s.(word := 0), t, Idle) else Goto(s, t, Panicked)
      case _ => s
  }

  // ---------------------------------------------------------------------- who holds what

  function ReadersOf<T>(s: State<T>): set<Tid> {
    set t | t in s.pcs && s.pcs[t].Reading?
  }

  /** Has won the latch and not yet given it up. */
  predicate HoldsLatch(pc: Pc) {
    pc.LockLoad? || pc.LockCas? || pc.Writing? || pc.Unlock?
  }

  predicate HoldsLock(pc: Pc) {
    pc.Writing? || pc.Unlock?
  }

  function LatchersOf<T>(s: State<T>): set<Tid> {
    set t | t in s.pcs && HoldsLatch(s.pcs[t])
  }

  /** The word is the account of the guards, and no caller has panicked. */
  ghost predicate Inv<T>(s: State<T>) {
    && s.word < WORD
    && Readers(s.word) == |ReadersOf(s)| <= READERS_MAX
    && (forall t, u :: t in LatchersOf(s) && u in LatchersOf(s) ==> t == u)
    && (Latched(s.word) <==> LatchersOf(s) != {})
    && (Locked(s.word) <==> exists t :: t in s.pcs && HoldsLock(s.pcs[t]))
    && (Locked(s.word) ==> ReadersOf(s) == {})
    && forall t :: t in s.pcs ==> LocalInv(s, s.pcs[t])
  }

  /** What a caller may rely on between its load and its compare-and-exchange. */
  predicate LocalInv<T>(s: State<T>, pc: Pc) {
    match pc
    case ReadCas(seen) => seen < WORD && !Latched(seen) && !Locked(seen)
    case LatchCas(seen) => seen < WORD && !Latched(seen) && !Locked(seen)
    case LockCas(seen) => seen == s.word && Readers(seen) == 0
    case Unlock(seen) => seen == s.word
    case Panicked => false
    case _ => true
  }

  ghost predicate Initial<T>(s: State<T>) {
    s.word == 0 && forall t :: t in s.pcs ==> s.pcs[t].Idle?
  }

  lemma InitialInv<T>(s: State<T>)
    requires Initial(s)
    ensures Inv(s)
  {
    assert ReadersOf(s) == {} && LatchersOf(s) == {};
  }

  // --------------------------------------------------------------------- how a step moves

  /** The effect of moving one caller on the two sets of holders. */
  lemma Moved<T>(s: State<T>, s': State<T>, t: Tid)
    requires t in s.pcs && t in s'.pcs && s'.pcs == s.pcs[t := s'.pcs[t]]
    ensures ReadersOf(s') == ReadersOf(s) - {t} + if s'.pcs[t].Reading? then {t} else {}
    ensures LatchersOf(s') == LatchersOf(s) - {t} + if HoldsLatch(s'.pcs[t]) then {t} else {}
  {
  }

  lemma WordParts(w: nat)
    requires w < WORD
    ensures w == Readers(w) + (if Latched(w) then LATCH_FLAG else 0) + (if Locked(w) then LOCK_FLAG else 0)
  {
  }

  /** One more or one fewer reader changes the low bits only, while they have room. */
  lemma CountReader(w: nat)
    requires w < WORD
    ensures Readers(w) < READERS_MAX ==>
              && w + 1 < WORD && Readers(w + 1) == Readers(w) + 1
              && Latched(w + 1) == Latched(w) && Locked(w + 1) == Locked(w)
    ensures Readers(w) > 0 ==>
              && (w + WORD - 1) % WORD == w - 1 && Readers(w - 1) == Readers(w) - 1
              && Latched(w - 1) == Latched(w) && Locked(w - 1) == Locked(w)
  {
    WordParts(w);
  }

  lemma FlagWords(w: nat)
    requires w < WORD
    ensures !Latched(w) ==>
              && SetLatch(w) < WORD && Readers(SetLatch(w)) == Readers(w)
              && Latched(SetLatch(w)) && Locked(SetLatch(w)) == Locked(w)
    ensures !Locked(w) ==>
              && SetLock(w) < WORD && Readers(SetLock(w)) == Readers(w)
              && Locked(SetLock(w)) && Latched(SetLock(w)) == Latched(w)
  {
    WordParts(w);
  }

  // ---------------------------------------------------------------- the inductive invariant

  /** A step that leaves the word alone and changes neither set of holders. */
  ghost predicate Quiet<T>(s: State<T>, s': State<T>) {
    s'.word == s.word && ReadersOf(s') == ReadersOf(s) && LatchersOf(s') == LatchersOf(s)
  }

  lemma QuietInv<T>(s: State<T>, s': State<T>, t: Tid)
    requires Inv(s) && Quiet(s, s') && t in s.pcs && t in s'.pcs && s'.pcs == s.pcs[t := s'.pcs[t]]
    requires LocalInv(s', s'.pcs[t]) && HoldsLock(s'.pcs[t]) == HoldsLock(s.pcs[t])
    ensures Inv(s')
  {
    if Locked(s.word) {
      var u :| u in s.pcs && HoldsLock(s.pcs[u]);
      assert u in s'.pcs && HoldsLock(s'.pcs[u]);
    }
    if u :| u in s'.pcs && HoldsLock(s'.pcs[u]) {
      assert HoldsLock(s.pcs[u]);
    }
  }

  /** What the invariant says about one caller. */
  lemma Holder<T>(s: State<T>, t: Tid)
    requires Inv(s) && t in s.pcs
    ensures LocalInv(s, s.pcs[t])
    ensures HoldsLatch(s.pcs[t]) ==> Latched(s.word) && forall u :: u in s.pcs && u != t ==> !HoldsLatch(s.pcs[u])
    ensures HoldsLock(s.pcs[t]) ==> Locked(s.word) && ReadersOf(s) == {}
    ensures s.pcs[t].Reading? ==> t in ReadersOf(s) && 0 < Readers(s.word) && !Locked(s.word)
    ensures !Latched(s.word) ==> !Locked(s.word) && forall u :: u in s.pcs ==> !HoldsLatch(s.pcs[u])
  {
    assert HoldsLatch(s.pcs[t]) ==> t in LatchersOf(s);
    forall u | u in s.pcs && HoldsLatch(s.pcs[u]) ensures u in LatchersOf(s) {
    }
  }

  /** The word after one more reader, with and without room for it. */
  lemma CountIn(w: nat)
    requires w < WORD && !Latched(w) && !Locked(w)
    ensures (w + 1) % WORD == w + 1 && w == Readers(w) <= READERS_MAX
    ensures w < READERS_MAX ==> Readers(w + 1) == w + 1 && !Latched(w + 1) && !Locked(w + 1)
    ensures w == READERS_MAX ==> w + 1 == LATCH_FLAG && Latched(w + 1)
  {
  }

  /**
   With a reader more or less, the flags as they are, and nobody at a compare-and-exchange that depends on the
   word.
   */
  lemma ReadersInv<T>(s: State<T>, s': State<T>, t: Tid)
    requires Inv(s) && !Locked(s.word) && t in s.pcs && t in s'.pcs && s'.pcs == s.pcs[t := s'.pcs[t]]
    requires s'.word < WORD && Readers(s'.word) == |ReadersOf(s')| <= READERS_MAX
    requires Latched(s'.word) == Latched(s.word) && !Locked(s'.word) && LatchersOf(s') == LatchersOf(s)
    requires LocalInv(s', s'.pcs[t]) && !HoldsLock(s'.pcs[t])
    requires forall u :: u in s.pcs && u != t ==> !s.pcs[u].LockCas?
    ensures Inv(s')
  {
    forall u | u in s'.pcs ensures LocalInv(s', s'.pcs[u]) && !HoldsLock(s'.pcs[u]) {
      if u != t {
        Holder(s, u);
      }
    }
  }

  /** While there are readers, or no latch, nobody is about to take the lock. */
  lemma NoLockCas<T>(s: State<T>)
    requires Inv(s) && (Readers(s.word) > 0 || !Latched(s.word))
    ensures forall u :: u in s.pcs ==> !s.pcs[u].LockCas?
  {
    forall u | u in s.pcs ensures !s.pcs[u].LockCas? {
      Holder(s, u);
    }
  }

  lemma OneFewer<T>(a: set<T>, t: T)
    requires t in a
    ensures |a - {t}| == |a| - 1
  {
  }

  lemma EnteredSets<T>(s: State<T>, s': State<T>, t: Tid)
    requires t in s.pcs && !s.pcs[t].Reading? && !HoldsLatch(s.pcs[t]) && s'.pcs == s.pcs[t := Reading]
    ensures |ReadersOf(s')| == |ReadersOf(s)| + 1 && LatchersOf(s') == LatchersOf(s)
  {
    Moved(s, s', t);
  }

  lemma ReaderEntered<T>(s: State<T>, s': State<T>, t: Tid)
    requires Inv(s) && !Latched(s.word) && !Locked(s.word) && t in s.pcs && !s.pcs[t].Reading?
    requires s'.pcs == s.pcs[t := Reading] && s'.word == s.word + 1
    ensures |ReadersOf(s')| == |ReadersOf(s)| + 1 && LatchersOf(s') == {}
    ensures Readers(s.word) < READERS_MAX ==> Inv(s')
  {
    Holder(s, t);
    EnteredSets(s, s', t);
    CountIn(s.word);
    if Readers(s.word) < READERS_MAX {
      NoLockCas(s);
      ReadersInv(s, s', t);
    }
  }

  /** A reader counts itself in: fine exactly while the count has room. */
  lemma EnterRead<T>(s: State<T>, t: Tid)
    requires Inv(s) && t in s.pcs && s.pcs[t] == ReadCas(s.word)
    ensures var s' := Step(s, t, Go);
            && (Inv(s') <==> |ReadersOf(s')| <= READERS_MAX)
            && |ReadersOf(s')| == |ReadersOf(s)| + 1
            && (|ReadersOf(s')| > READERS_MAX ==> s'.word == LATCH_FLAG && LatchersOf(s') == {})
  {
    Holder(s, t);
    CountIn(s.word);
    ReaderEntered(s, Step(s, t, Go), t);
  }

  lemma LeftSets<T>(s: State<T>, s': State<T>, t: Tid)
    requires t in s.pcs && s.pcs[t].Reading? && s'.pcs == s.pcs[t := Idle]
    ensures ReadersOf(s') == ReadersOf(s) - {t} && |ReadersOf(s')| == |ReadersOf(s)| - 1
    ensures LatchersOf(s') == LatchersOf(s)
  {
    Moved(s, s', t);
    OneFewer(ReadersOf(s), t);
  }

  lemma ReaderLeft<T>(s: State<T>, s': State<T>, t: Tid)
    requires Inv(s) && !Locked(s.word) && t in s.pcs && s'.pcs == s.pcs[t := Idle]
    requires |ReadersOf(s')| == |ReadersOf(s)| - 1 && LatchersOf(s') == LatchersOf(s)
    requires s'.word < WORD && Readers(s'.word) == Readers(s.word) - 1
    requires Latched(s'.word) == Latched(s.word) && Locked(s'.word) == Locked(s.word)
    ensures Inv(s')
  {
    NoLockCas(s);
    ReadersInv(s, s', t);
  }

  lemma LeaveRead<T>(s: State<T>, t: Tid)
    requires Inv(s) && t in s.pcs && s.pcs[t].Reading?
    ensures Inv(Step(s, t, Release)) && ReadersOf(Step(s, t, Release)) == ReadersOf(s) - {t}
  {
    Holder(s, t);
    CountReader(s.word);
    var s' := Step(s, t, Release);
    LeftSets(s, s', t);
    ReaderLeft(s, s', t);
  }

  lemma Latch<T>(s: State<T>, t: Tid)
    requires Inv(s) && t in s.pcs && s.pcs[t] == LatchCas(s.word)
    ensures Inv(Step(s, t, Go)) && ReadersOf(Step(s, t, Go)) == ReadersOf(s)
  {
    var s' := Step(s, t, Go);
    Moved(s, s', t);
    assert LocalInv(s, s.pcs[t]);
    FlagWords(s.word);
    assert LatchersOf(s) == {};
    forall u | u in s'.pcs ensures LocalInv(s', s'.pcs[u]) && !HoldsLock(s'.pcs[u]) {
      if u != t {
        assert LocalInv(s, s.pcs[u]);
        assert u !in LatchersOf(s);
      }
    }
  }

  lemma Lock<T>(s: State<T>, t: Tid)
    requires Inv(s) && t in s.pcs && s.pcs[t].LockCas?
    ensures var s' := Step(s, t, Go); Inv(s') && s'.pcs[t].Writing? && ReadersOf(s') == ReadersOf(s) == {}
    ensures forall u :: u in s.pcs ==> !HoldsLock(s.pcs[u])
  {
    var s' := Step(s, t, Go);
    Holder(s, t);
    Moved(s, s', t);
    FlagWords(s.word);
    assert HoldsLock(s'.pcs[t]);
    forall u | u in s'.pcs ensures LocalInv(s', s'.pcs[u]) {
      Holder(s, u);
    }
  }

  lemma Clear<T>(s: State<T>, t: Tid)
    requires Inv(s) && t in s.pcs && s.pcs[t].Unlock?
    ensures var s' := Step(s, t, Go); Inv(s') && s'.pcs[t].Idle? && ReadersOf(s') == ReadersOf(s) == {}
  {
    var s' := Step(s, t, Go);
    Holder(s, t);
    Moved(s, s', t);
    forall u | u in s'.pcs ensures LocalInv(s', s'.pcs[u]) && !HoldsLatch(s'.pcs[u]) {
      Holder(s, u);
    }
  }

  /** The steps that change no holder. */
  ghost predicate Minor<T>(s: State<T>, t: Tid, a: Action<T>)
    requires Enabled(s, t, a)
  {
    match a
    case Release => s.pcs[t].Writing?
    case Go => s.pcs[t] != ReadCas(s.word) && s.pcs[t] != LatchCas(s.word) && !s.pcs[t].LockCas? && !s.pcs[t].Unlock?
    case _ => true
  }

  /** One caller moved without changing the word, what it holds, or what it may rely on. */
  ghost predicate Moves<T>(s: State<T>, s': State<T>, t: Tid)
    requires t in s.pcs
  {
    && s'.word == s.word && t in s'.pcs && s'.pcs == s.pcs[t := s'.pcs[t]]
    && s'.pcs[t].Reading? == s.pcs[t].Reading? && HoldsLatch(s'.pcs[t]) == HoldsLatch(s.pcs[t])
    && HoldsLock(s'.pcs[t]) == HoldsLock(s.pcs[t]) && LocalInv(s', s'.pcs[t])
    && (s'.value != s.value ==> s.pcs[t].Writing?)
  }

  lemma MinorMoves<T>(s: State<T>, t: Tid, a: Action<T>)
    requires Inv(s) && Enabled(s, t, a) && Minor(s, t, a)
    ensures Moves(s, Step(s, t, a), t)
  {
    Holder(s, t);
  }

  lemma MovesQuiet<T>(s: State<T>, s': State<T>, t: Tid)
    requires t in s.pcs && Moves(s, s', t)
    ensures Quiet(s, s')
  {
    Moved(s, s', t);
    assert s.pcs[t].Reading? <==> t in ReadersOf(s);
    assert HoldsLatch(s.pcs[t]) <==> t in LatchersOf(s);
  }

  lemma MovesInv<T>(s: State<T>, s': State<T>, t: Tid)
    requires Inv(s) && t in s.pcs && Moves(s, s', t)
    ensures Inv(s') && Quiet(s, s')
  {
    MovesQuiet(s, s', t);
    QuietInv(s, s', t);
  }

  /**
   Every step of every caller keeps the account exact, and no caller panics, so long as the
   read guards fit in 30 bits; the step that counts one more than fit is the only one that
   breaks it.
   */
  lemma StepInv<T>(s: State<T>, t: Tid, a: Action<T>)
    requires Inv(s) && Enabled(s, t, a)
    ensures Inv(Step(s, t, a)) <==> |ReadersOf(Step(s, t, a))| <= 0x3FFF_FFFF
  {
    var pc := s.pcs[t];
    assert LocalInv(s, pc);
    if a.Release? && pc.Reading? {
      LeaveRead(s, t);
    } else if a.Go? && pc == ReadCas(s.word) {
      EnterRead(s, t);
    } else if a.Go? && pc == LatchCas(s.word) {
      Latch(s, t);
    } else if a.Go? && pc.LockCas? {
      Lock(s, t);
    } else if a.Go? && pc.Unlock? {
      Clear(s, t);
    } else {
      MinorMoves(s, t, a);
      MovesInv(s, Step(s, t, a), t);
    }
  }

  // ---------------------------------------------------------------------------------- runs

  ghost predicate Next<T(!new)>(s: State<T>, s': State<T>) {
    exists t, a :: Enabled(s, t, a) && s' == Step(s, t, a)
  }

  /** An interleaving of the callers, from the unlocked word. */
  ghost predicate Run<T(!new)>(tr: seq<State<T>>) {
    tr != [] && Initial(tr[0]) && forall i :: 0 <= i < |tr| - 1 ==> Next(tr[i], tr[i + 1])
  }

  ghost predicate Fits<T>(tr: seq<State<T>>) {
    forall i :: 0 <= i < |tr| ==> |ReadersOf(tr[i])| <= READERS_MAX
  }

  lemma {:induction false} RunInv<T(!new)>(tr: seq<State<T>>, k: nat)
    requires Run(tr) && Fits(tr) && k < |tr|
    ensures Inv(tr[k])
  {
    if k == 0 {
      InitialInv(tr[0]);
    } else {
      RunInv(tr, k - 1);
      assert Next(tr[k - 1], tr[k - 1 + 1]);
      var t, a :| Enabled(tr[k - 1], t, a) && tr[k] == Step(tr[k - 1], t, a);
      StepInv(tr[k - 1], t, a);
    }
  }

  /**
   In every state of every interleaving: a write guard excludes every other guard, the low
   bits count the read guards, lock implies latch, and no "call the programmer" is reached.
   */
  lemma Safety<T(!new)>(tr: seq<State<T>>, k: nat)
    requires Run(tr) && Fits(tr) && k < |tr|
    ensures var s := tr[k];
            && (forall t, u :: t in s.pcs && u in s.pcs && s.pcs[t].Writing? && t != u ==>
                  !s.pcs[u].Writing? && !s.pcs[u].Reading?)
            && s.word < 0x1_0000_0000 && s.word % 0x4000_0000 == |ReadersOf(s)|
            && (s.word / 0x8000_0000 == 1 ==> s.word / 0x4000_0000 == 3)
            && forall t :: t in s.pcs ==> !s.pcs[t].Panicked?
  {
    RunInv(tr, k);
    var s := tr[k];
    forall t, u | t in s.pcs && u in s.pcs && s.pcs[t].Writing? && t != u
      ensures !s.pcs[u].Writing? && !s.pcs[u].Reading?
    {
      assert HoldsLock(s.pcs[t]) && t in LatchersOf(s);
      assert s.pcs[u].Writing? ==> u in LatchersOf(s);
      assert s.pcs[u].Reading? ==> u in ReadersOf(s);
    }
    if Locked(s.word) {
      var t :| t in s.pcs && HoldsLock(s.pcs[t]);
      assert t in LatchersOf(s);
    }
    forall t | t in s.pcs ensures !s.pcs[t].Panicked? {
      assert LocalInv(s, s.pcs[t]);
    }
  }

  /** The value seen through a read guard does not change while the guard lives. */
  lemma {:induction false} ReadIsStable<T(!new)>(tr: seq<State<T>>, t: Tid, i: nat, j: nat)
    requires Run(tr) && Fits(tr) && i <= j < |tr|
    requires forall k :: i <= k <= j ==> t in tr[k].pcs && tr[k].pcs[t].Reading?
    ensures tr[i].value == tr[j].value
    decreases j - i
  {
    if i < j {
      ReadIsStable(tr, t, i, j - 1);
      var s := tr[j - 1];
      RunInv(tr, j - 1);
      assert Next(s, tr[j - 1 + 1]);
      var u, a :| Enabled(s, u, a) && tr[j] == Step(s, u, a);
      StepKeepsValue(s, t, u, a);
    }
  }

  lemma StepKeepsValue<T>(s: State<T>, t: Tid, u: Tid, a: Action<T>)
    requires Inv(s) && t in s.pcs && s.pcs[t].Reading? && Enabled(s, u, a)
    ensures Step(s, u, a).value == s.value
  {
    Holder(s, t);
    Holder(s, u);
  }

  /** While a caller holds the latch no step lets a reader in. */
  lemma LatchStopsReaders<T>(s: State<T>, t: Tid, u: Tid, a: Action<T>)
    requires Inv(s) && t in s.pcs && HoldsLatch(s.pcs[t]) && Enabled(s, u, a)
    ensures ReadersOf(Step(s, u, a)) <= ReadersOf(s)
  {
    Holder(s, t);
    Holder(s, u);
    Moved(s, Step(s, u, a), u);
  }

  /** From latching on, the readers only leave. */
  lemma {:induction false} ReadersDrain<T(!new)>(tr: seq<State<T>>, t: Tid, i: nat, j: nat)
    requires Run(tr) && Fits(tr) && i <= j < |tr|
    requires forall k :: i <= k <= j ==> t in tr[k].pcs && HoldsLatch(tr[k].pcs[t])
    ensures ReadersOf(tr[j]) <= ReadersOf(tr[i])
    decreases j - i
  {
    if i < j {
      ReadersDrain(tr, t, i, j - 1);
      RunInv(tr, j - 1);
      assert Next(tr[j - 1], tr[j - 1 + 1]);
      var u, a :| Enabled(tr[j - 1], u, a) && tr[j] == Step(tr[j - 1], u, a);
      LatchStopsReaders(tr[j - 1], t, u, a);
    }
  }

  /**
   Once the readers are gone, the writer's next two operations take it into the room,
   whatever the others do before either of them.
   */
  lemma WriterEnters<T(!new)>(tr: seq<State<T>>, t: Tid, i: nat, j: nat)
    requires Run(tr) && Fits(tr) && i <= j < |tr| && ReadersOf(tr[i]) == {}
    requires forall k :: i <= k <= j ==> t in tr[k].pcs && HoldsLatch(tr[k].pcs[t])
    ensures tr[j].pcs[t].LockLoad? ==> Step(tr[j], t, Go).pcs[t].LockCas?
    ensures tr[j].pcs[t].LockCas? ==> Step(tr[j], t, Go).pcs[t].Writing?
  {
    ReadersDrain(tr, t, i, j);
    RunInv(tr, j);
    if tr[j].pcs[t].LockCas? {
      Lock(tr[j], t);
    }
  }

  /** With 0x3FFFFFFF read guards out, the next one sets the latch bit with no writer behind it. */
  lemma OneReaderTooMany<T>(s: State<T>, t: Tid)
    requires Inv(s) && t in s.pcs && s.pcs[t] == ReadCas(s.word) && |ReadersOf(s)| == 0x3FFF_FFFF
    ensures var s' := Step(s, t, Go); s'.word == 0x4000_0000 && LatchersOf(s') == {} && !Inv(s')
  {
    EnterRead(s, t);
    WordParts(s.word);
    assert LocalInv(s, s.pcs[t]);
  }

  // ------------------------------------------------- refinement of a readers-writer lock

  /** The lock as its users see it. */
  datatype Door<T> = Door(readers: set<Tid>, writers: set<Tid>, value: T)

  function View<T>(s: State<T>): Door<T> {
    Door(ReadersOf(s), (set t | t in s.pcs && HoldsLock(s.pcs[t])), s.value)
  }

  /** What one caller may do to the door, in one indivisible step. */
  ghost predicate DoorStep<T>(d: Door<T>, e: Door<T>, t: Tid) {
    || e == d
    || (d.writers == {} && e == d.(readers := d.readers + {t}))
    || (t in d.readers && e == d.(readers := d.readers - {t}))
    || (d.readers == {} && d.writers == {} && e == d.(writers := {t}))
    || (d.writers == {t} && d.readers == {} && e == d.(writers := {}))
    || (d.writers == {t} && d.readers == {} && e == d.(value := e.value))
  }

  lemma ViewMoved<T>(s: State<T>, s': State<T>, t: Tid)
    requires t in s.pcs && t in s'.pcs && s'.pcs == s.pcs[t := s'.pcs[t]]
    ensures View(s').writers == View(s).writers - {t} + if HoldsLock(s'.pcs[t]) then {t} else {}
  {
  }

  lemma MovesDoor<T>(s: State<T>, s': State<T>, t: Tid)
    requires Inv(s) && t in s.pcs && Moves(s, s', t)
    ensures DoorStep(View(s), View(s'), t)
  {
    MovesInv(s, s', t);
    ViewMoved(s, s', t);
    WritersAlone(s);
    assert HoldsLock(s.pcs[t]) ==> t in View(s).writers;
    assert View(s') == View(s).(value := s'.value);
  }

  /** The effect of moving one caller on the door, when the value is left alone. */
  lemma DoorMoved<T>(s: State<T>, s': State<T>, t: Tid)
    requires t in s.pcs && t in s'.pcs && s'.pcs == s.pcs[t := s'.pcs[t]] && s'.value == s.value
    ensures s'.pcs[t].Reading? ==>
              View(s') == View(s).(readers := View(s).readers + {t}, writers := View(s).writers - {t})
    ensures HoldsLock(s'.pcs[t]) ==>
              View(s') == View(s).(readers := View(s).readers - {t}, writers := View(s).writers + {t})
    ensures !s'.pcs[t].Reading? && !HoldsLock(s'.pcs[t]) ==>
              View(s') == View(s).(readers := View(s).readers - {t}, writers := View(s).writers - {t})
  {
    Moved(s, s', t);
    ViewMoved(s, s', t);
  }

  lemma EnterDoor<T>(s: State<T>, t: Tid)
    requires Inv(s) && t in s.pcs && s.pcs[t] == ReadCas(s.word)
    ensures DoorStep(View(s), View(Step(s, t, Go)), t)
  {
    Holder(s, t);
    WritersAlone(s);
    DoorMoved(s, Step(s, t, Go), t);
  }

  lemma LeaveDoor<T>(s: State<T>, t: Tid)
    requires Inv(s) && t in s.pcs && s.pcs[t].Reading?
    ensures DoorStep(View(s), View(Step(s, t, Release)), t)
  {
    Holder(s, t);
    WritersAlone(s);
    DoorMoved(s, Step(s, t, Release), t);
  }

  lemma LatchDoor<T>(s: State<T>, t: Tid)
    requires Inv(s) && t in s.pcs && s.pcs[t] == LatchCas(s.word)
    ensures DoorStep(View(s), View(Step(s, t, Go)), t)
  {
    DoorMoved(s, Step(s, t, Go), t);
    assert View(s).readers - {t} == View(s).readers && View(s).writers - {t} == View(s).writers;
  }

  lemma LockDoor<T>(s: State<T>, t: Tid)
    requires Inv(s) && t in s.pcs && s.pcs[t].LockCas?
    ensures DoorStep(View(s), View(Step(s, t, Go)), t)
  {
    Lock(s, t);
    assert View(s).writers == {};
    DoorMoved(s, Step(s, t, Go), t);
  }

  lemma ClearDoor<T>(s: State<T>, t: Tid)
    requires Inv(s) && t in s.pcs && s.pcs[t].Unlock?
    ensures DoorStep(View(s), View(Step(s, t, Go)), t)
  {
    Clear(s, t);
    WritersAlone(s);
    DoorMoved(s, Step(s, t, Go), t);
  }

  /** Every atomic operation is a step of the door, or none: the spinlock refines it. */
  lemma Refines<T>(s: State<T>, t: Tid, a: Action<T>)
    requires Inv(s) && Enabled(s, t, a)
    ensures DoorStep(View(s), View(Step(s, t, a)), t)
  {
    if Minor(s, t, a) {
      MinorMoves(s, t, a);
      MovesDoor(s, Step(s, t, a), t);
    } else {
      match s.pcs[t] {
        case Reading => LeaveDoor(s, t);
        case ReadCas(_) => EnterDoor(s, t);
        case LatchCas(_) => LatchDoor(s, t);
        case LockCas(_) => LockDoor(s, t);
        case Unlock(_) => ClearDoor(s, t);
      }
    }
  }

  /** There is at most one writer, and no reader beside it. */
  lemma WritersAlone<T>(s: State<T>)
    requires Inv(s)
    ensures forall t :: t in s.pcs && HoldsLock(s.pcs[t]) ==> View(s).writers == {t} && View(s).readers == {}
    ensures !Locked(s.word) ==> View(s).writers == {}
  {
    forall t | t in s.pcs && HoldsLock(s.pcs[t]) ensures View(s).writers == {t} && View(s).readers == {} {
      Holder(s, t);
    }
  }

  // ----------------------------------------------------------------------- that callers get on

  /** Up to `n` operations of one caller, while no other takes a step. */
  function Alone<T>(s: State<T>, t: Tid, n: nat): State<T>
    decreases n
  {
    if n == 0 || !Enabled(s, t, Go) then s else Alone(Step(s, t, Go), t, n - 1)
  }

  lemma AloneTwo<T>(s: State<T>, t: Tid, n: nat)
    requires Enabled(s, t, Go) && Enabled(Step(s, t, Go), t, Go) && n >= 2
    ensures Alone(s, t, n) == Alone(Step(Step(s, t, Go), t, Go), t, n - 2)
  {
    assert Alone(s, t, n) == Alone(Step(s, t, Go), t, n - 1);
  }

  /** The latch is free exactly if nobody holds it. */
  lemma LatchFree<T>(s: State<T>)
    requires Inv(s)
    ensures LatchersOf(s) == {} <==> !Latched(s.word)
    ensures LatchersOf(s) == {} ==> !Locked(s.word) && View(s).writers == {}
  {
    if Locked(s.word) {
      var t :| t in s.pcs && HoldsLock(s.pcs[t]);
      assert t in LatchersOf(s);
    }
    WritersAlone(s);
  }

  /** From the load on, `read` returns a guard with its next two operations, or goes round. */
  lemma ReadFromLoad<T>(s: State<T>, t: Tid)
    requires Inv(s) && t in s.pcs && s.pcs[t].ReadLoad?
    ensures Enabled(s, t, Go) && Enabled(Step(s, t, Go), t, Go)
    ensures var r := Step(Step(s, t, Go), t, Go);
            if LatchersOf(s) == {} then r.pcs == s.pcs[t := Reading] && r.value == s.value else r == s
  {
    LatchFree(s);
  }

  lemma ReadingDoor<T>(s: State<T>, r: State<T>, t: Tid)
    requires t in s.pcs && !HoldsLock(s.pcs[t]) && r.pcs == s.pcs[t := Reading] && r.value == s.value
    ensures View(r) == View(s).(readers := View(s).readers + {t}) && !Enabled(r, t, Go)
  {
    DoorMoved(s, r, t);
    assert View(s).writers - {t} == View(s).writers;
  }

  /**
   From wherever it stands in `read`, three operations of its own give a caller a read guard exactly if nobody
   holds the latch, however many readers are in; the others keep what they have.
   */
  lemma ReadReturns<T>(s: State<T>, t: Tid)
    requires Inv(s) && t in s.pcs && (s.pcs[t].ReadLoad? || s.pcs[t].ReadCas?)
    ensures t in View(Alone(s, t, 3)).readers <==> LatchersOf(s) == {}
    ensures LatchersOf(s) == {} ==> View(Alone(s, t, 3)) == View(s).(readers := View(s).readers + {t})
  {
    LatchFree(s);
    Holder(s, t);
    if s.pcs[t] == ReadCas(s.word) {
      var r := Step(s, t, Go);
      ReadingDoor(s, r, t);
      assert Alone(s, t, 3) == Alone(r, t, 2) == r;
    } else if s.pcs[t].ReadLoad? {
      ReadAround(s, t, 3);
    } else {
      var u := Step(s, t, Go);
      MinorMoves(s, t, Go);
      MovesInv(s, u, t);
      MovesDoor(s, u, t);
      assert View(u) == View(s) by {
        ViewMoved(s, u, t);
        assert View(s).writers - {t} == View(s).writers;
      }
      assert Alone(s, t, 3) == Alone(u, t, 2);
      ReadAround(u, t, 2);
    }
  }

  lemma ReadAround<T>(s: State<T>, t: Tid, n: nat)
    requires Inv(s) && t in s.pcs && s.pcs[t].ReadLoad? && 2 <= n <= 3
    ensures if LatchersOf(s) == {} then View(Alone(s, t, n)) == View(s).(readers := View(s).readers + {t})
            else View(Alone(s, t, n)) == View(s) && t !in View(s).readers
  {
    ReadFromLoad(s, t);
    AloneTwo(s, t, n);
    var r := Step(Step(s, t, Go), t, Go);
    if LatchersOf(s) == {} {
      ReadingDoor(s, r, t);
    } else if n == 3 {
      LatchFree(s);
      assert Step(s, t, Go) == s;
    }
  }

  /** From the load on, the first loop of `write` ends with its next two operations, or goes round. */
  lemma LatchFromLoad<T>(s: State<T>, t: Tid)
    requires Inv(s) && t in s.pcs && s.pcs[t].LatchLoad?
    ensures Enabled(s, t, Go) && Enabled(Step(s, t, Go), t, Go)
    ensures var r := Step(Step(s, t, Go), t, Go);
            if LatchersOf(s) == {} then r.pcs == s.pcs[t := LockLoad] && r.value == s.value && Inv(r) else r == s
  {
    LatchFree(s);
    if LatchersOf(s) == {} {
      var u := Step(s, t, Go);
      Holder(s, t);
      MinorMoves(s, t, Go);
      MovesInv(s, u, t);
      Latch(u, t);
    }
  }

  /** The second loop ends with its next two operations, or goes round. */
  lemma LockFromLoad<T>(s: State<T>, t: Tid)
    requires Inv(s) && t in s.pcs && s.pcs[t].LockLoad?
    ensures Enabled(s, t, Go) && Enabled(Step(s, t, Go), t, Go)
    ensures var r := Step(Step(s, t, Go), t, Go);
            if ReadersOf(s) == {} then r.pcs == s.pcs[t := Writing] && r.value == s.value else r == s
  {
    Holder(s, t);
    if ReadersOf(s) == {} {
      var u := Step(s, t, Go);
      MinorMoves(s, t, Go);
      MovesInv(s, u, t);
    }
  }

  lemma WritingDoor<T>(s: State<T>, r: State<T>, t: Tid)
    requires Inv(s) && t in s.pcs && s.pcs[t].LockLoad? && ReadersOf(s) == {}
    requires r.pcs == s.pcs[t := Writing] && r.value == s.value
    ensures View(r) == View(s).(writers := {t}) && !Enabled(r, t, Go)
  {
    Holder(s, t);
    assert View(s).writers == {};
    DoorMoved(s, r, t);
  }

  /** A latched caller is in the room after two operations of its own exactly if the readers are gone. */
  lemma LockReturns<T>(s: State<T>, t: Tid)
    requires Inv(s) && t in s.pcs && s.pcs[t].LockLoad?
    ensures if ReadersOf(s) == {} then View(Alone(s, t, 2)) == View(s).(writers := {t})
            else View(Alone(s, t, 2)) == View(s)
  {
    LockFromLoad(s, t);
    AloneTwo(s, t, 2);
    if ReadersOf(s) == {} {
      WritingDoor(s, Step(Step(s, t, Go), t, Go), t);
    }
  }

  /**
   From the beginning of `write`, four operations of its own give a caller a write guard if nobody holds the
   latch and nobody reads. With readers in it has the latch after two, and with the latch taken it goes round;
   the others keep what they have.
   */
  lemma WriteReturns<T>(s: State<T>, t: Tid)
    requires Inv(s) && t in s.pcs && s.pcs[t].LatchLoad?
    ensures LatchersOf(Alone(s, t, 2)) == if LatchersOf(s) == {} then {t} else LatchersOf(s)
    ensures View(Alone(s, t, 2)) == View(s)
    ensures View(Alone(s, t, 4)) ==
            if LatchersOf(s) == {} && ReadersOf(s) == {} then View(s).(writers := {t}) else View(s)
  {
    var r := TwoOfWrite(s, t);
    if LatchersOf(s) == {} {
      LatchedDoor(s, r, t);
      LockReturns(r, t);
    }
  }

  lemma TwoOfWrite<T>(s: State<T>, t: Tid) returns (r: State<T>)
    requires Inv(s) && t in s.pcs && s.pcs[t].LatchLoad?
    ensures Alone(s, t, 2) == r
    ensures if LatchersOf(s) == {}
            then r.pcs == s.pcs[t := LockLoad] && r.value == s.value && Inv(r) && Alone(s, t, 4) == Alone(r, t, 2)
            else r == s == Alone(s, t, 4)
  {
    LatchFromLoad(s, t);
    AloneTwo(s, t, 2);
    AloneTwo(s, t, 4);
    r := Step(Step(s, t, Go), t, Go);
  }

  lemma LatchedDoor<T>(s: State<T>, r: State<T>, t: Tid)
    requires t in s.pcs && s.pcs[t].LatchLoad? && r.pcs == s.pcs[t := LockLoad] && r.value == s.value
    ensures View(r) == View(s) && LatchersOf(r) == LatchersOf(s) + {t} && ReadersOf(r) == ReadersOf(s)
  {
    Moved(s, r, t);
    ViewMoved(s, r, t);
    assert ReadersOf(s) - {t} == ReadersOf(s) && View(s).writers - {t} == View(s).writers;
    assert LatchersOf(s) - {t} == LatchersOf(s);
  }

  /** What a caller writes is the value from then on. */
  lemma StoreWrites<T>(s: State<T>, t: Tid, v: T)
    requires Inv(s) && t in s.pcs && s.pcs[t].Writing?
    ensures Enabled(s, t, Store(v)) && View(Step(s, t, Store(v))) == View(s).(value := v)
    ensures Step(s, t, Store(v)).pcs == s.pcs
  {
  }

  /** Dropping a guard takes one operation of a reader, and two of a writer, who gives up the latch as well. */
  lemma DropReturns<T>(s: State<T>, t: Tid)
    requires Inv(s) && t in s.pcs && (s.pcs[t].Reading? || s.pcs[t].Writing?)
    ensures Enabled(s, t, Release)
    ensures var r := Alone(Step(s, t, Release), t, 1);
            && r.pcs == s.pcs[t := Idle] && LatchersOf(r) == LatchersOf(s) - {t}
            && View(r) == View(s).(readers := View(s).readers - {t}, writers := View(s).writers - {t})
  {
    DropGoesIdle(s, t);
    var r := Alone(Step(s, t, Release), t, 1);
    DoorMoved(s, r, t);
    Moved(s, r, t);
  }

  lemma DropGoesIdle<T>(s: State<T>, t: Tid)
    requires Inv(s) && t in s.pcs && (s.pcs[t].Reading? || s.pcs[t].Writing?)
    ensures var r := Alone(Step(s, t, Release), t, 1); r.pcs == s.pcs[t := Idle] && r.value == s.value
  {
    Holder(s, t);
    var u := Step(s, t, Release);
    if s.pcs[t].Writing? {
      assert u.pcs[t] == Unlock(u.word);
      assert Alone(u, t, 1) == Alone(Step(u, t, Go), t, 0);
    }
  }

  /** From wherever it stands in the first loop, three operations give a caller the latch exactly if it is free. */
  lemma LatchReturns<T>(s: State<T>, t: Tid)
    requires Inv(s) && t in s.pcs && (s.pcs[t].LatchLoad? || s.pcs[t].LatchCas?)
    ensures t in LatchersOf(Alone(s, t, 3)) <==> LatchersOf(s) == {}
  {
    LatchFree(s);
    Holder(s, t);
    if s.pcs[t].LatchLoad? {
      LatchAround(s, t, 3);
    } else {
      var u := Step(s, t, Go);
      assert Alone(s, t, 3) == Alone(u, t, 2);
      if s.pcs[t] == LatchCas(s.word) {
        Latch(s, t);
        LatchStays(u, t, 2);
      } else {
        MinorMoves(s, t, Go);
        MovesInv(s, u, t);
        LatchAround(u, t, 2);
      }
    }
  }

  lemma LatchAround<T>(s: State<T>, t: Tid, n: nat)
    requires Inv(s) && t in s.pcs && s.pcs[t].LatchLoad? && 2 <= n <= 3
    ensures t in LatchersOf(Alone(s, t, n)) <==> LatchersOf(s) == {}
  {
    LatchFromLoad(s, t);
    AloneTwo(s, t, n);
    LatchFree(s);
    if LatchersOf(s) == {} {
      LatchStays(Step(Step(s, t, Go), t, Go), t, n - 2);
    } else if n == 3 {
      assert Step(s, t, Go) == s;
    }
  }

  /** A caller that waits for the readers keeps the latch. */
  lemma LatchStays<T>(s: State<T>, t: Tid, n: nat)
    requires Inv(s) && t in s.pcs && s.pcs[t].LockLoad? && n <= 2
    ensures t in LatchersOf(Alone(s, t, n))
  {
    LockFromLoad(s, t);
    if n == 1 {
      assert Alone(s, t, 1) == Alone(Step(s, t, Go), t, 0);
    } else if n == 2 {
      AloneTwo(s, t, 2);
    }
  }

  /** What a call of `read`, and one of `write`, come to if no other caller takes a step meanwhile. */
  lemma CallsReturn<T>(s: State<T>, t: Tid)
    requires Inv(s) && t in s.pcs && s.pcs[t].Idle?
    ensures Enabled(s, t, CallRead) && Enabled(s, t, CallWrite)
    ensures View(Alone(Step(s, t, CallRead), t, 2)) ==
            if LatchersOf(s) == {} then View(s).(readers := View(s).readers + {t}) else View(s)
    ensures View(Alone(Step(s, t, CallWrite), t, 4)) ==
            if LatchersOf(s) == {} && ReadersOf(s) == {} then View(s).(writers := {t}) else View(s)
  {
    Holder(s, t);
    var r, w := Step(s, t, CallRead), Step(s, t, CallWrite);
    MovesInv(s, r, t);
    MovesInv(s, w, t);
    ViewMoved(s, r, t);
    ViewMoved(s, w, t);
    assert View(s).writers - {t} == View(s).writers;
    assert View(r) == View(s) && View(w) == View(s);
    ReadAround(r, t, 2);
    WriteReturns(w, t);
  }
}
