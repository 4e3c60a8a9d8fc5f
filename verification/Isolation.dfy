/** Every interleaving of forks, stores, faults, growth, shrinking and teardown by any number of
    processes.  fork goes on page by page and teardown link by link, with steps of the other
    processes in between.  Private memory behaves as if fork had copied every page at once.
 */
module Isolation {
  import opened Frames
  import opened AddressSpace
  import opened CopyOnWrite
  import opened Fork

  /** A child that process `p` is making; `i` pages are copied. */
  datatype Half = Half(p: nat, i: nat)

  /** The memory, the live processes with their size in pages, the children that a fork is making,
      the processes that wait is freeing, and the pages that were made read-only or copied from one
      that was. */
  datatype State = State(m: Mem, np: map<nat, nat>, forks: map<nat, Half>, dying: set<nat>, sealed: set<Key>)

  datatype Step =
    | First(c: nat)                                     // userinit: a process without pages
    | ForkStart(p: nat, c: nat)                         // allocproc and setupkvm
    | ForkPage(p: nat, c: nat)                          // one turn of copyuvm
    | ForkShare(p: nat, c: nat, pg: nat)                // one wmap page for the child
    | ForkDone(p: nat, c: nat)                          // the child is runnable
    | UserStore(p: nat, pg: nat, off: nat, v: int)      // a store the entry permits
    | Fault(p: nat, pg: nat)                            // copy-on-write fault
    | Touch(p: nat, pg: nat)                            // first access to a wmap page
    | Unmap(p: nat, pg: nat)                            // wunmap of one page
    | Protect(p: nat, pg: nat)                          // loaduvm makes a page read-only
    | Grow(p: nat, n: nat)                              // sbrk up to n pages
    | Shrink(p: nat, n: nat)                            // sbrk down to n pages
    | ReapStart(p: nat)                                 // wait takes a dead process
    | FreeLink(k: Key)                                  // and kfrees a page of it
    | ReapDone(p: nat)                                  // until nothing is left

  /** A live process that is not inside fork. */
  ghost predicate Runs(s: State, p: nat) {
    p in s.np && forall c :: c in s.forks ==> s.forks[c].p != p
  }

  predicate Unborn(s: State, c: nat) {
    c !in s.np && c !in s.forks && c !in s.dying
  }

  /** `p` is making `c`. */
  predicate Forking(s: State, p: nat, c: nat) {
    c in s.forks && s.forks[c].p == p && p in s.np
  }

  ghost predicate Enabled(s: State, step: Step) {
    match step
    case First(c) => Unborn(s, c)
    case ForkStart(p, c) => Runs(s, p) && Unborn(s, c)
    case ForkPage(p, c) => Forking(s, p, c) && s.forks[c].i < s.np[p] <= LIMIT && Copyable(s.m, p, c, s.forks[c].i)
    case ForkShare(p, c, pg) =>
      Forking(s, p, c) && s.forks[c].i == s.np[p] && LIMIT <= pg < KERNPAGES && Copyable(s.m, p, c, pg)
    case ForkDone(p, c) => Forking(s, p, c) && s.forks[c].i == s.np[p]
    case UserStore(p, pg, off, _) => Runs(s, p) && MayStore(s.m, p, pg, off)
    case Fault(p, pg) => Runs(s, p) && User(p, pg) in s.m.links && s.m.links[User(p, pg)].cow
    case Touch(p, pg) => Runs(s, p) && LIMIT <= pg < KERNPAGES && User(p, pg) !in s.m.links
    case Unmap(p, pg) => Runs(s, p) && LIMIT <= pg < KERNPAGES
    case Protect(p, pg) => Runs(s, p) && pg < LIMIT && User(p, pg) in s.m.links
    case Grow(p, n) => Runs(s, p) && s.np[p] <= n <= LIMIT
    case Shrink(p, n) => Runs(s, p) && n <= s.np[p]
    case ReapStart(p) => Runs(s, p)
    case FreeLink(k) => k.p in s.dying && k in s.m.links
    case ReapDone(p) => p in s.dying && NoLinks(s.m, p)
  }

  /** loaduvm clears the writable bit of a page. */
  function ReadOnly(m: Mem, k: Key): Mem
    requires k in m.links
  {
    Link(m, k, m.links[k].(w := false))
  }

  function Next(s: State, step: Step): State
    requires Frames.Inv(s.m) && Enabled(s, step)
  {
    match step
    case First(c) =>
      var r := NewProc(s.m, c);
      s.(m := r.m, np := if r.ok then s.np[c := 0] else s.np)
    case ForkStart(p, c) =>
      var r := NewProc(s.m, c);
      s.(m := r.m, forks := if r.ok then s.forks[c := Half(p, 0)] else s.forks)
    case ForkPage(p, c) =>
      var r := CopyPage(s.m, p, c, s.forks[c].i);
      CopyPageSame(s.m, p, c, s.forks[c].i);
      DropInv(r.m, Kern(c, KSTACK));
      if r.ok then
        s.(m := r.m, forks := s.forks[c := Half(p, s.forks[c].i + 1)],
           sealed := if User(p, s.forks[c].i) in s.sealed then s.sealed + {User(c, s.forks[c].i)} else s.sealed)
      else
        s.(m := Forget(Drop(r.m, Kern(c, KSTACK)), c), forks := s.forks - {c},
           sealed := set k | k in s.sealed && k.p != c)
    case ForkShare(p, c, pg) => s.(m := SharePage(s.m, p, c, pg))
    case ForkDone(p, c) => s.(np := s.np[c := s.np[p]], forks := s.forks - {c})
    case UserStore(p, pg, off, v) => s.(m := Store(s.m, p, pg, off, v))
    case Fault(p, pg) => s.(m := CowFault(s.m, p, pg).m)
    case Touch(p, pg) => s.(m := LazyPage(s.m, p, pg).m)
    case Unmap(p, pg) =>
      DropInv(s.m, User(p, pg));
      s.(m := Drop(s.m, User(p, pg)))
    case Protect(p, pg) => s.(m := ReadOnly(s.m, User(p, pg)), sealed := s.sealed + {User(p, pg)})
    case Grow(p, n) =>
      var r := AllocUvm(s.m, p, s.np[p], n, s.np[p]);
      s.(m := r.m, np := if r.ok then s.np[p := n] else s.np)
    case Shrink(p, n) =>
      s.(m := DeallocUvm(s.m, p, n, s.np[p]), np := s.np[p := n],
         sealed := set k | k in s.sealed && !InRange(k, p, n, s.np[p]))
    case ReapStart(p) => s.(np := s.np - {p}, dying := s.dying + {p})
    case FreeLink(k) =>
      DropInv(s.m, k);
      s.(m := Drop(s.m, k), sealed := s.sealed - {k})
    case ReapDone(p) => s.(dying := s.dying - {p})
  }

  /** Page `pg` of the child is that of the parent. */
  ghost predicate CopyOf(m: Mem, p: nat, c: nat, pg: nat) {
    User(p, pg) in m.links && User(c, pg) in m.links && PageAt(m, User(c, pg)) == PageAt(m, User(p, pg))
  }

  /** A live process has exactly its pages below the wmap range; a child that is being made has the
      pages copied so far, with the contents of its parent's; others have no links. */
  ghost predicate PagesAt(s: State, q: nat) {
    if q in s.np then
      && q !in s.forks && q !in s.dying && s.np[q] <= LIMIT
      && forall pg: nat :: pg < LIMIT ==> (User(q, pg) in s.m.links <==> pg < s.np[q])
    else if q in s.forks then
      && q !in s.dying && s.forks[q].p in s.np && s.forks[q].i <= s.np[s.forks[q].p] <= LIMIT
      && (forall pg: nat :: pg < LIMIT ==> (User(q, pg) in s.m.links <==> pg < s.forks[q].i))
      && (forall pg: nat :: pg < s.forks[q].i ==> CopyOf(s.m, s.forks[q].p, q, pg))
    else q !in s.dying ==> NoLinks(s.m, q)
  }

  ghost predicate Inv(s: State) {
    Frames.Inv(s.m) && forall q: nat :: PagesAt(s, q)
  }

  ghost predicate Init(s: State) {
    && Sizes(s.m) && s.m.links == map[] && s.np == map[] && s.forks == map[] && s.dying == {} && s.sealed == {}
    && (forall f: nat :: f < |s.m.frames| ==> s.m.counts[f] == 0)
    && (forall i: nat :: i < |s.m.free| ==> FreeAt(s.m, i))
  }

  // ---------------------------------------------------------------- the eager machine

  /** Private memories of the live processes, page by page. */
  type Memories = map<nat, map<nat, Page>>

  function Views(s: State): Memories {
    map p | p in s.np :: View(s.m, p)
  }

  predicate Between(lo: nat, pg: nat, hi: nat) {
    lo <= pg < hi
  }

  function Zeros(lo: nat, hi: nat): map<nat, Page> {
    map pg: nat | pg < hi && Between(lo, pg, hi) :: Filled(0)
  }

  function Replace(mem: map<nat, Page>, pg: nat, page: Page): map<nat, Page> {
    mem[pg := page]
  }

  /** Without sharing: fork copies the whole memory when it is done and until then shows nothing, a
      store changes one byte of one process, faults change nothing.  Growth may fail and then
      changes nothing. */
  ghost predicate EagerStep(v: Memories, step: Step, v': Memories) {
    match step
    case First(c) => v' == v || v' == v[c := map[]]
    case ForkDone(p, c) => p in v && c !in v && v' == v[c := v[p]]
    case UserStore(p, pg, off, val) =>
      if pg >= LIMIT then v' == v else
      && p in v && pg in v[p] && off < |v[p][pg].bytes|
      && v' == v[p := Replace(v[p], pg, SetByte(v[p][pg], off, val))]
    case Grow(p, n) => v' == v || (p in v && v' == v[p := v[p] + Zeros(|v[p]|, n)])
    case Shrink(p, n) => p in v && v' == v[p := map pg | pg in v[p] && pg < n :: v[p][pg]]
    case ReapStart(p) => p in v && v' == v - {p}
    case _ => v' == v
  }

  // ---------------------------------------------------------------- invariant and refinement

  lemma InitInv(s: State)
    requires Init(s)
    ensures Inv(s) && Views(s) == map[]
  {
    forall f: nat | f < |s.m.frames| ensures CountAt(s.m, f) { assert Refs(s.m, f) == {}; }
  }

  lemma SameViews(m: Mem, m': Mem, p: nat)
    requires forall pg: nat :: pg < LIMIT ==> SameContent(m, m', User(p, pg))
    ensures View(m', p) == View(m, p)
  {
    forall pg: nat | pg < LIMIT ensures User(p, pg) in m.links <==> User(p, pg) in m'.links {
      assert SameContent(m, m', User(p, pg));
    }
    forall pg: nat | pg < LIMIT && User(p, pg) in m.links
      ensures PageAt(m', User(p, pg)) == PageAt(m, User(p, pg))
    {
      assert SameContent(m, m', User(p, pg));
    }
  }

  predicate SameStatus(s: State, s': State, q: nat) {
    && (q in s.np <==> q in s'.np) && (q in s.np ==> s'.np[q] == s.np[q])
    && (q in s.forks <==> q in s'.forks) && (q in s.forks ==> s'.forks[q] == s.forks[q])
    && (q in s.dying <==> q in s'.dying)
  }

  /** Process `q` keeps its pages and their contents; if it is being made, so does its parent. */
  lemma Untouched(s: State, s': State, q: nat)
    requires PagesAt(s, q) && SameStatus(s, s', q)
    requires q in s.forks && q !in s.np ==> SameStatus(s, s', s.forks[q].p)
    requires forall pg: nat :: pg < LIMIT ==> SameContent(s.m, s'.m, User(q, pg))
    requires q in s.forks && q !in s.np ==>
               forall pg: nat :: pg < LIMIT ==> SameContent(s.m, s'.m, User(s.forks[q].p, pg))
    requires Unborn(s, q) ==> NoLinks(s'.m, q)
    ensures PagesAt(s', q) && View(s'.m, q) == View(s.m, q)
  {
    SameViews(s.m, s'.m, q);
    forall pg: nat | pg < LIMIT ensures User(q, pg) in s.m.links <==> User(q, pg) in s'.m.links {
      assert SameContent(s.m, s'.m, User(q, pg));
    }
    if q in s.forks && q !in s.np {
      var p := s.forks[q].p;
      forall pg: nat | pg < s.forks[q].i ensures CopyOf(s'.m, p, q, pg) {
        assert CopyOf(s.m, p, q, pg) && SameContent(s.m, s'.m, User(q, pg)) && SameContent(s.m, s'.m, User(p, pg));
      }
    }
  }

  /** All processes but `p` are untouched. */
  lemma OthersUntouched(s: State, s': State, p: nat)
    requires Inv(s) && Frames.Inv(s'.m) && PagesAt(s', p)
    requires (forall q: nat :: q != p ==> SameStatus(s, s', q)) && (forall c :: c in s.forks ==> s.forks[c].p != p)
    requires forall k: Key :: k.p != p && k.User? && !Shared(k) ==> SameContent(s.m, s'.m, k)
    requires forall k: Key :: k in s'.m.links && k.p != p ==> k in s.m.links
    ensures Inv(s') && forall q: nat :: q != p ==> View(s'.m, q) == View(s.m, q)
  {
    forall q: nat | q != p ensures PagesAt(s', q) && View(s'.m, q) == View(s.m, q) {
      assert PagesAt(s, q);
      Untouched(s, s', q);
    }
  }

  /** Children have live parents, so a process that is not live has no child. */
  lemma NoParent(s: State, c: nat)
    requires Inv(s) && c !in s.np
    ensures forall x :: x in s.forks ==> s.forks[x].p != c
  {
    forall x | x in s.forks ensures s.forks[x].p != c { assert PagesAt(s, x); }
  }

  /** The views after a step that gave process `p` the private memory `v`. */
  lemma ViewsWith(s: State, s': State, p: nat, v: map<nat, Page>)
    requires p in s'.np && View(s'.m, p) == v
    requires forall q: nat :: q != p ==> (q in s.np <==> q in s'.np) && View(s'.m, q) == View(s.m, q)
    ensures Views(s') == Views(s)[p := v]
  {
  }

  lemma ViewsSame(s: State, s': State, p: nat)
    requires s'.np.Keys == s.np.Keys && (p in s.np ==> View(s'.m, p) == View(s.m, p))
    requires forall q: nat :: q != p ==> View(s'.m, q) == View(s.m, q)
    ensures Views(s') == Views(s)
  {
  }

  /** NewProc made kernel pages for `c` or left nothing. */
  lemma NewProcDone(s: State, r: Outcome, c: nat)
    requires Inv(s) && Unborn(s, c) && (if r.ok then KernOnly(s.m, r.m, c) else Gone(s.m, r.m, c))
    ensures Frames.Inv(r.m) && (forall pg: nat :: pg < LIMIT ==> User(c, pg) !in r.m.links)
    ensures forall k: Key :: k.p != c ==> SameContent(s.m, r.m, k)
    ensures forall k: Key :: k in r.m.links && k.p != c ==> k in s.m.links
  {
    assert PagesAt(s, c);
    forall k: Key | k.p != c ensures SameContent(s.m, r.m, k) { assert Same(s.m, r.m, k); }
    forall pg: nat | pg < LIMIT ensures User(c, pg) !in r.m.links {
      if r.ok { assert Same(s.m, r.m, User(c, pg)); }
    }
    forall k: Key | k in r.m.links && k.p != c ensures k in s.m.links { assert SameContent(s.m, r.m, k); }
  }

  lemma FirstDone(s: State, r: Outcome, c: nat)
    requires Inv(s) && Unborn(s, c) && (if r.ok then KernOnly(s.m, r.m, c) else Gone(s.m, r.m, c))
    ensures var s' := s.(m := r.m, np := if r.ok then s.np[c := 0] else s.np);
            Inv(s') && EagerStep(Views(s), First(c), Views(s'))
  {
    var s' := s.(m := r.m, np := if r.ok then s.np[c := 0] else s.np);
    NewProcDone(s, r, c);
    NoParent(s, c);
    OthersUntouched(s, s', c);
    assert View(s'.m, c) == map[];
    if r.ok { ViewsWith(s, s', c, map[]); } else { ViewsSame(s, s', c); }
  }

  lemma FirstRefines(s: State, c: nat)
    requires Inv(s) && Enabled(s, First(c))
    ensures Inv(Next(s, First(c))) && EagerStep(Views(s), First(c), Views(Next(s, First(c))))
  {
    assert PagesAt(s, c);
    NewProcOnly(s.m, c);
    FirstDone(s, NewProc(s.m, c), c);
  }

  lemma ForkStartRefines(s: State, p: nat, c: nat)
    requires Inv(s) && Enabled(s, ForkStart(p, c))
    ensures Inv(Next(s, ForkStart(p, c))) && Views(Next(s, ForkStart(p, c))) == Views(s)
  {
    assert PagesAt(s, c) && PagesAt(s, p);
    NewProcOnly(s.m, c);
    var r, s' := NewProc(s.m, c), Next(s, ForkStart(p, c));
    NewProcDone(s, r, c);
    NoParent(s, c);
    OthersUntouched(s, s', c);
    ViewsSame(s, s', c);
  }

  /** copyuvm's turn went well: the child has one page more. */
  lemma PageDone(s: State, r: Outcome, p: nat, c: nat, sealed: set<Key>)
    requires Inv(s) && Forking(s, p, c) && s.forks[c].i < s.np[p] <= LIMIT && p != c
    requires r.ok && PageCopied(s.m, r, p, c, s.forks[c].i)
    ensures var s' := s.(m := r.m, forks := s.forks[c := Half(p, s.forks[c].i + 1)], sealed := sealed);
            Inv(s') && Views(s') == Views(s)
  {
    var i := s.forks[c].i;
    var s' := s.(m := r.m, forks := s.forks[c := Half(p, i + 1)], sealed := sealed);
    assert PagesAt(s, c) && PagesAt(s, p);
    forall k: Key | k.p != c ensures SameContent(s.m, r.m, k) { assert k != User(p, i) ==> Same(s.m, r.m, k); }
    forall k: Key | k in r.m.links && k.p != c ensures k in s.m.links { assert SameContent(s.m, r.m, k); }
    forall pg: nat | pg < LIMIT ensures User(c, pg) in r.m.links <==> pg < i + 1 {
      if pg != i { assert Same(s.m, r.m, User(c, pg)); }
    }
    forall pg: nat | pg < i + 1 ensures CopyOf(r.m, p, c, pg) {
      assert SameContent(s.m, r.m, User(p, pg));
      if pg != i { assert CopyOf(s.m, p, c, pg) && Same(s.m, r.m, User(c, pg)); }
    }
    NoParent(s, c);
    OthersUntouched(s, s', c);
    ViewsSame(s, s', c);
  }

  /** It failed: the child is given up, without its page directory being freed. */
  lemma PageFailed(s: State, r: Outcome, p: nat, c: nat, i: nat, sealed: set<Key>)
    requires Inv(s) && Forking(s, p, c) && p != c && !r.ok && PageCopied(s.m, r, p, c, i)
    ensures Kern(c, KSTACK) in r.m.links ==> r.m.links[Kern(c, KSTACK)].frame < |r.m.frames|
    ensures var s' := s.(m := Forget(Drop(r.m, Kern(c, KSTACK)), c), forks := s.forks - {c}, sealed := sealed);
            Inv(s') && Views(s') == Views(s)
  {
    DropSame(r.m, Kern(c, KSTACK));
    var m2 := Drop(r.m, Kern(c, KSTACK));
    ForgetInv(m2, set k | k in m2.links && k.p == c);
    var m' := Forget(m2, c);
    var s' := s.(m := m', forks := s.forks - {c}, sealed := sealed);
    assert PagesAt(s, c);
    forall k: Key | k.p != c ensures SameContent(s.m, m', k) {
      assert Same(r.m, m2, k);
      assert k != User(p, i) ==> Same(s.m, r.m, k);
    }
    forall k: Key | k in m'.links && k.p != c ensures k in s.m.links { assert SameContent(s.m, m', k); }
    NoParent(s, c);
    OthersUntouched(s, s', c);
    ViewsSame(s, s', c);
  }

  lemma ForkPageRefines(s: State, p: nat, c: nat)
    requires Inv(s) && Enabled(s, ForkPage(p, c))
    ensures Inv(Next(s, ForkPage(p, c))) && Views(Next(s, ForkPage(p, c))) == Views(s)
  {
    assert PagesAt(s, p) && PagesAt(s, c);
    var i := s.forks[c].i;
    CopyPageSame(s.m, p, c, i);
    var r := CopyPage(s.m, p, c, i);
    var sealed := Next(s, ForkPage(p, c)).sealed;
    if r.ok { PageDone(s, r, p, c, sealed); } else { PageFailed(s, r, p, c, i, sealed); }
  }

  lemma ForkShareRefines(s: State, p: nat, c: nat, pg: nat)
    requires Inv(s) && Enabled(s, ForkShare(p, c, pg))
    ensures Inv(Next(s, ForkShare(p, c, pg))) && Views(Next(s, ForkShare(p, c, pg))) == Views(s)
  {
    assert PagesAt(s, p) && PagesAt(s, c);
    SharePageSame(s.m, p, c, pg);
    var s' := Next(s, ForkShare(p, c, pg));
    forall k: Key | k.p != c || (k.User? && !Shared(k)) ensures SameContent(s.m, s'.m, k) { assert Same(s.m, s'.m, k); }
    forall k: Key | k in s'.m.links && k.p != c ensures k in s.m.links { assert SameContent(s.m, s'.m, k); }
    Untouched(s, s', c);
    NoParent(s, c);
    OthersUntouched(s, s', c);
    ViewsSame(s, s', c);
  }

  /** The child is there with the memory that the parent has; the parent has not run since it called
      fork. */
  lemma ForkDoneRefines(s: State, p: nat, c: nat)
    requires Inv(s) && Enabled(s, ForkDone(p, c))
    ensures Inv(Next(s, ForkDone(p, c))) && EagerStep(Views(s), ForkDone(p, c), Views(Next(s, ForkDone(p, c))))
  {
    assert PagesAt(s, p) && PagesAt(s, c);
    var s' := Next(s, ForkDone(p, c));
    NoParent(s, c);
    OthersUntouched(s, s', c);
    forall pg: nat | pg < s.np[p] ensures PageAt(s.m, User(c, pg)) == PageAt(s.m, User(p, pg)) {
      assert CopyOf(s.m, p, c, pg);
    }
    assert View(s.m, c) == View(s.m, p);
    ViewsWith(s, s', c, View(s.m, p));
  }

  lemma StoreView(m: Mem, m': Mem, p: nat, pg: nat, page: Page)
    requires pg < LIMIT && User(p, pg) in m.links && User(p, pg) in m'.links && PageAt(m', User(p, pg)) == page
    requires forall k: Key :: k != User(p, pg) && k.User? && !Shared(k) ==> SameContent(m, m', k)
    ensures View(m', p) == Replace(View(m, p), pg, page)
  {
    forall pg': nat | pg' < LIMIT && pg' != pg ensures SameContent(m, m', User(p, pg')) { }
  }

  lemma StoreRefines(s: State, p: nat, pg: nat, off: nat, v: int)
    requires Inv(s) && Enabled(s, UserStore(p, pg, off, v))
    ensures Inv(Next(s, UserStore(p, pg, off, v)))
    ensures EagerStep(Views(s), UserStore(p, pg, off, v), Views(Next(s, UserStore(p, pg, off, v))))
  {
    assert PagesAt(s, p);
    StoreIsolated(s.m, p, pg, off, v);
    var s' := Next(s, UserStore(p, pg, off, v));
    forall k: Key | k != User(p, pg) && k.User? && !Shared(k) ensures SameContent(s.m, s'.m, k) {
      assert Same(s.m, s'.m, k);
    }
    assert PagesAt(s', p);
    OthersUntouched(s, s', p);
    if pg >= LIMIT {
      SameViews(s.m, s'.m, p);
      ViewsSame(s, s', p);
    } else {
      var page := SetByte(PageAt(s.m, User(p, pg)), off, v);
      StoreView(s.m, s'.m, p, pg, page);
      ViewsWith(s, s', p, Replace(View(s.m, p), pg, page));
    }
  }

  /** Steps that change the page tables of one process but no contents. */
  lemma QuietDone(s: State, m': Mem, p: nat, sealed: set<Key>)
    requires Inv(s) && Frames.Inv(m') && Runs(s, p)
    requires forall k: Key :: k.p != p || (k.User? && !Shared(k)) ==> SameContent(s.m, m', k)
    ensures Inv(s.(m := m', sealed := sealed)) && Views(s.(m := m', sealed := sealed)) == Views(s)
  {
    var s' := s.(m := m', sealed := sealed);
    assert PagesAt(s, p);
    forall k: Key | k in m'.links && k.p != p ensures k in s.m.links { assert SameContent(s.m, m', k); }
    forall pg: nat | pg < LIMIT ensures SameContent(s.m, m', User(p, pg)) { }
    Untouched(s, s', p);
    OthersUntouched(s, s', p);
    ViewsSame(s, s', p);
  }

  lemma FaultRefines(s: State, p: nat, pg: nat)
    requires Inv(s) && Enabled(s, Fault(p, pg))
    ensures Inv(Next(s, Fault(p, pg))) && EagerStep(Views(s), Fault(p, pg), Views(Next(s, Fault(p, pg))))
  {
    CowFaultSame(s.m, p, pg);
    var m' := CowFault(s.m, p, pg).m;
    forall k: Key ensures SameContent(s.m, m', k) { assert k != User(p, pg) ==> Same(s.m, m', k); }
    QuietDone(s, m', p, s.sealed);
  }

  lemma TouchRefines(s: State, p: nat, pg: nat)
    requires Inv(s) && Enabled(s, Touch(p, pg))
    ensures Inv(Next(s, Touch(p, pg))) && EagerStep(Views(s), Touch(p, pg), Views(Next(s, Touch(p, pg))))
  {
    LazyPageSame(s.m, p, pg);
    var m' := LazyPage(s.m, p, pg).m;
    forall k: Key | k.p != p || (k.User? && !Shared(k)) ensures SameContent(s.m, m', k) { assert Same(s.m, m', k); }
    QuietDone(s, m', p, s.sealed);
  }

  lemma UnmapRefines(s: State, p: nat, pg: nat)
    requires Inv(s) && Enabled(s, Unmap(p, pg))
    ensures Inv(Next(s, Unmap(p, pg))) && EagerStep(Views(s), Unmap(p, pg), Views(Next(s, Unmap(p, pg))))
  {
    DropSame(s.m, User(p, pg));
    var m' := Drop(s.m, User(p, pg));
    forall k: Key | k.p != p || (k.User? && !Shared(k)) ensures SameContent(s.m, m', k) { assert Same(s.m, m', k); }
    QuietDone(s, m', p, s.sealed);
  }

  /** Making a page read-only hides nothing. */
  lemma ProtectRefines(s: State, p: nat, pg: nat)
    requires Inv(s) && Enabled(s, Protect(p, pg))
    ensures Inv(Next(s, Protect(p, pg))) && EagerStep(Views(s), Protect(p, pg), Views(Next(s, Protect(p, pg))))
  {
    var k := User(p, pg);
    assert LinkAt(s.m, k);
    FlagsInv(s.m, k, s.m.links[k].(w := false));
    QuietDone(s, ReadOnly(s.m, k), p, s.sealed + {k});
  }

  lemma GrowDone(s: State, r: Outcome, p: nat, n: nat)
    requires Inv(s) && Enabled(s, Grow(p, n)) && Grown(s.m, r, p, s.np[p], n, s.np[p])
    ensures var s' := s.(m := r.m, np := if r.ok then s.np[p := n] else s.np);
            Inv(s') && EagerStep(Views(s), Grow(p, n), Views(s'))
  {
    assert PagesAt(s, p);
    var s' := s.(m := r.m, np := if r.ok then s.np[p := n] else s.np);
    forall k: Key | k.p != p ensures SameContent(s.m, s'.m, k) { assert Same(s.m, s'.m, k); }
    forall k: Key | k in s'.m.links && k.p != p ensures k in s.m.links { assert SameContent(s.m, s'.m, k); }
    forall pg: nat | pg < s.np[p] || n <= pg < LIMIT ensures Same(s.m, s'.m, User(p, pg)) { }
    assert PagesAt(s', p);
    OthersUntouched(s, s', p);
    ViewSize(s, p);
    if r.ok {
      GrownView(s.m, r, p, s.np[p], n);
      ViewsWith(s, s', p, View(s.m, p) + Zeros(s.np[p], n));
    } else {
      SameViews(s.m, s'.m, p);
      ViewsSame(s, s', p);
    }
  }

  lemma GrownView(m: Mem, r: Outcome, p: nat, a: nat, n: nat)
    requires Grown(m, r, p, a, n, a) && r.ok && a <= n <= LIMIT
    requires forall pg: nat :: pg < LIMIT ==> (User(p, pg) in m.links <==> pg < a)
    ensures View(r.m, p) == View(m, p) + Zeros(a, n)
  {
    forall pg: nat | pg < LIMIT
      ensures User(p, pg) in r.m.links <==> pg < n
      ensures pg < a ==> PageAt(r.m, User(p, pg)) == PageAt(m, User(p, pg))
    {
      if pg < a || n <= pg { assert Same(m, r.m, User(p, pg)); }
    }
  }

  lemma GrowRefines(s: State, p: nat, n: nat)
    requires Inv(s) && Enabled(s, Grow(p, n))
    ensures Inv(Next(s, Grow(p, n))) && EagerStep(Views(s), Grow(p, n), Views(Next(s, Grow(p, n))))
  {
    assert PagesAt(s, p);
    AllocUvmSame(s.m, p, s.np[p], n, s.np[p]);
    GrowDone(s, AllocUvm(s.m, p, s.np[p], n, s.np[p]), p, n);
  }

  /** The domain of a view is an initial segment. */
  lemma ViewSize(s: State, p: nat)
    requires Inv(s) && p in s.np
    ensures |View(s.m, p)| == s.np[p]
  {
    assert PagesAt(s, p);
    SegmentCard(View(s.m, p).Keys, s.np[p]);
  }

  lemma ShrunkView(m: Mem, m': Mem, p: nat, n: nat)
    requires forall pg: nat :: pg < n ==> Same(m, m', User(p, pg))
    requires forall pg: nat :: n <= pg < LIMIT ==> User(p, pg) !in m'.links
    ensures View(m', p) == map pg | pg in View(m, p) && pg < n :: View(m, p)[pg]
  {
    forall pg: nat | pg < LIMIT ensures User(p, pg) in m'.links <==> pg < n && User(p, pg) in m.links {
      if pg < n { assert Same(m, m', User(p, pg)); }
    }
  }

  lemma ShrinkRefines(s: State, p: nat, n: nat)
    requires Inv(s) && Enabled(s, Shrink(p, n))
    ensures Inv(Next(s, Shrink(p, n))) && EagerStep(Views(s), Shrink(p, n), Views(Next(s, Shrink(p, n))))
  {
    assert PagesAt(s, p);
    DeallocUvmSame(s.m, p, n, s.np[p]);
    var s' := Next(s, Shrink(p, n));
    forall k: Key | k.p != p ensures SameContent(s.m, s'.m, k) { assert Same(s.m, s'.m, k); }
    forall k: Key | k in s'.m.links && k.p != p ensures k in s.m.links { assert SameContent(s.m, s'.m, k); }
    forall pg: nat | pg < n || s.np[p] <= pg ensures Same(s.m, s'.m, User(p, pg)) { }
    assert PagesAt(s', p);
    OthersUntouched(s, s', p);
    ShrunkView(s.m, s'.m, p, n);
    ViewsWith(s, s', p, View(s'.m, p));
  }

  /** A dead process is gone at once for the others; freeing its pages, in any order, is invisible. */
  lemma ReapRefines(s: State, step: Step)
    requires Inv(s) && Enabled(s, step) && (step.ReapStart? || step.FreeLink? || step.ReapDone?)
    ensures Inv(Next(s, step)) && EagerStep(Views(s), step, Views(Next(s, step)))
  {
    var s' := Next(s, step);
    var p := if step.FreeLink? then step.k.p else step.p;
    assert PagesAt(s, p);
    if step.FreeLink? { DropSame(s.m, step.k); }
    forall k: Key | k.p != p ensures SameContent(s.m, s'.m, k) { assert step.FreeLink? ==> Same(s.m, s'.m, k); }
    forall k: Key | k in s'.m.links && k.p != p ensures k in s.m.links { assert SameContent(s.m, s'.m, k); }
    if !step.ReapStart? { NoParent(s, p); }
    OthersUntouched(s, s', p);
  }

  /** Copy-on-write isolation: every step of every process acts on private memory as the eager
      machine does, whatever the other processes share with it and wherever their forks stand. */
  lemma NextRefines(s: State, step: Step)
    requires Inv(s) && Enabled(s, step)
    ensures Inv(Next(s, step)) && EagerStep(Views(s), step, Views(Next(s, step)))
  {
    match step
    case First(c) => FirstRefines(s, c);
    case ForkStart(p, c) => ForkStartRefines(s, p, c);
    case ForkPage(p, c) => ForkPageRefines(s, p, c);
    case ForkShare(p, c, pg) => ForkShareRefines(s, p, c, pg);
    case ForkDone(p, c) => ForkDoneRefines(s, p, c);
    case UserStore(p, pg, off, v) => StoreRefines(s, p, pg, off, v);
    case Fault(p, pg) => FaultRefines(s, p, pg);
    case Touch(p, pg) => TouchRefines(s, p, pg);
    case Unmap(p, pg) => UnmapRefines(s, p, pg);
    case Protect(p, pg) => ProtectRefines(s, p, pg);
    case Grow(p, n) => GrowRefines(s, p, n);
    case Shrink(p, n) => ShrinkRefines(s, p, n);
    case _ => ReapRefines(s, step);
  }

  /** fork and sbrk fail only for lack of frames, and exactly then: for the kernel's pages of the
      child, for a page table page of it, or for the new pages with their page table pages. */
  lemma FailsIffNoFrames(s: State, step: Step)
    requires Inv(s) && Enabled(s, step) && (step.ForkStart? || step.ForkPage? || step.Grow?)
    ensures var s' := Next(s, step);
            match step
            case ForkStart(_, c) => c in s'.forks <==> |s.m.free| >= NEWPROCPAGES
            case ForkPage(_, c) => c in s'.forks <==> Table(c, s.forks[c].i / NPDENTRIES) in s.m.links || s.m.free != []
            case Grow(p, n) =>
              s'.np[p] == n <==> n == s.np[p] || |s.m.free| >= n - s.np[p] + |Missing(s.m, p, s.np[p], n)|
            case _ => true
  {
    match step
    case ForkStart(p, c) =>
      assert PagesAt(s, c);
      NewProcIff(s.m, c);
    case ForkPage(p, c) =>
      CopyPageFrames(s.m, p, c, s.forks[c].i);
    case Grow(p, n) =>
      assert PagesAt(s, p);
      AllocUvmSucceedsIff(s.m, p, s.np[p], n, s.np[p]);
  }

  // ---------------------------------------------------------------- whole runs

  /** A step of a run.  The frame invariant only makes `Next` well defined; it holds in every
      state of a run, so it never blocks a step. */
  ghost predicate Takes(s: State, step: Step, s': State) {
    Frames.Inv(s.m) && Enabled(s, step) && s' == Next(s, step)
  }

  ghost predicate Run(ss: seq<State>, steps: seq<Step>) {
    |ss| == |steps| + 1 && Init(ss[0]) && forall i :: 0 <= i < |steps| ==> Takes(ss[i], steps[i], ss[i + 1])
  }

  /** Frame safety and isolation over whole runs. */
  lemma {:induction false} RunRefines(ss: seq<State>, steps: seq<Step>, i: nat)
    requires Run(ss, steps) && i <= |steps|
    ensures Inv(ss[i])
    ensures i < |steps| ==> EagerStep(Views(ss[i]), steps[i], Views(ss[i + 1]))
  {
    if i == 0 {
      InitInv(ss[0]);
    } else {
      RunRefines(ss, steps, i - 1);
      assert Takes(ss[i - 1], steps[i - 1], ss[i]);
      NextRefines(ss[i - 1], steps[i - 1]);
    }
    if i < |steps| {
      assert Takes(ss[i], steps[i], ss[i + 1]);
      NextRefines(ss[i], steps[i]);
    }
  }
}
