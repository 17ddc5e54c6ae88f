/** The cuckoo cache. An element may sit in any of eight slots that its hashes
    choose. Erasing only marks a slot as free for reuse; an insert that finds its
    eight slots taken pushes an element out of one of them and goes on with that
    one, up to a limit. Elements of the newest epoch are marked; when a scan finds
    the epoch full, older elements are released and the newest become old. */
module Cuckoo {
  import opened Options

  // The eight slots of an element come from keyed hashes; blank is the element
  // that fills a new table.
  datatype Config<!E> = Config(size: nat, epochSize: nat, depthLimit: nat, blank: E, locs: E -> seq<nat>)

  const SLOTS := 8

  ghost predicate Ok<E(!new)>(c: Config<E>) {
    && c.size > 0 && c.epochSize > 0 && c.depthLimit > 0
    && forall e :: |c.locs(e)| == SLOTS && forall k :: 0 <= k < SLOTS ==> c.locs(e)[k] < c.size
  }

  // dead marks the slots that may be reused, recent those of the newest epoch.
  datatype State<E> = State(table: seq<E>, dead: seq<bool>, recent: seq<bool>, counter: nat)

  predicate Shaped<E>(c: Config<E>, s: State<E>) {
    |s.table| == |s.dead| == |s.recent| == c.size
  }

  function Setup<E>(c: Config<E>): State<E> {
    State(seq(c.size, _ => c.blank), seq(c.size, _ => true), seq(c.size, _ => false), c.epochSize)
  }

  /* Epochs */

  // The slots below n that hold an element of the newest epoch.
  function Recents(dead: seq<bool>, recent: seq<bool>, n: nat): nat
    requires n <= |dead| && n <= |recent|
  {
    if n == 0 then 0
    else Recents(dead, recent, n - 1) + if recent[n - 1] && !dead[n - 1] then 1 else 0
  }

  function Max(a: nat, b: nat): nat { if a < b then b else a }

  // Every insert counts down. When the count is used up a scan decides whether
  // the newest epoch is full.
  function Checked<E>(c: Config<E>, s: State<E>): (r: State<E>)
    requires Shaped(c, s)
    ensures Shaped(c, r) && r.table == s.table
  {
    if s.counter != 0 then s.(counter := s.counter - 1)
    else
      var count := Recents(s.dead, s.recent, c.size);
      if count >= c.epochSize then
        State(s.table, seq(c.size, i requires 0 <= i < c.size => s.dead[i] || !s.recent[i]),
              seq(c.size, _ => false), c.epochSize)
      else s.(counter := Max(1, Max(c.epochSize / 16, c.epochSize - count)))
  }

  /* Inserting */

  // The first of the slots from the k-th on that holds e.
  function Holding<E(==)>(table: seq<E>, locs: seq<nat>, e: E, k: nat): (r: Option<nat>)
    requires k <= |locs| && forall j :: 0 <= j < |locs| ==> locs[j] < |table|
    ensures r.Some? ==> r.value in locs && r.value < |table| && table[r.value] == e
    ensures r.None? ==> forall j :: k <= j < |locs| ==> table[locs[j]] != e
    decreases |locs| - k
  {
    if k == |locs| then None
    else if table[locs[k]] == e then Some(locs[k])
    else Holding(table, locs, e, k + 1)
  }

  // The first of the slots from the k-th on that may be reused.
  function Reusable(dead: seq<bool>, locs: seq<nat>, k: nat): (r: Option<nat>)
    requires k <= |locs| && forall j :: 0 <= j < |locs| ==> locs[j] < |dead|
    ensures r.Some? ==> r.value in locs && r.value < |dead| && dead[r.value]
    ensures r.None? ==> forall j :: k <= j < |locs| ==> !dead[locs[j]]
    decreases |locs| - k
  {
    if k == |locs| then None
    else if dead[locs[k]] then Some(locs[k])
    else Reusable(dead, locs, k + 1)
  }

  // The index of a slot among the eight, or eight if it is none of them.
  function IndexOf(locs: seq<nat>, last: Option<nat>, k: nat): (r: nat)
    requires k <= |locs|
    ensures k <= r <= |locs|
    decreases |locs| - k
  {
    if k == |locs| then k
    else if last == Some(locs[k]) then k
    else IndexOf(locs, last, k + 1)
  }

  // The slot after the one used last.
  function NextLoc(locs: seq<nat>, last: Option<nat>): (r: nat)
    requires |locs| == SLOTS
    ensures r in locs
  { locs[(1 + IndexOf(locs, last, 0)) % SLOTS] }

  function Put<E>(s: State<E>, i: nat, e: E, isRecent: bool): State<E>
    requires i < |s.table| == |s.dead| == |s.recent|
  { s.(table := s.table[i := e], dead := s.dead[i := false], recent := s.recent[i := isRecent]) }

  // Finds room for an element that is not in the table, and for those it pushes
  // out. The element left over in the end, if any, is dropped.
  ghost function Displaced<E(!new)>(c: Config<E>, s: State<E>, e: E, isRecent: bool, last: Option<nat>, depth: nat)
    : (r: (State<E>, Option<E>))
    requires Ok(c) && Shaped(c, s)
    ensures Shaped(c, r.0)
    decreases depth
  {
    if depth == 0 then (s, Some(e))
    else
      var locs := c.locs(e);
      var free := Reusable(s.dead, locs, 0);
      if free.Some? then (Put(s, free.value, e, isRecent), None)
      else
        var i := NextLoc(locs, last);
        Displaced(c, Put(s, i, e, isRecent), s.table[i], s.recent[i], Some(i), depth - 1)
  }

  ghost function Inserted<E(!new)>(c: Config<E>, s: State<E>, e: E): (r: (State<E>, Option<E>))
    requires Ok(c) && Shaped(c, s)
    ensures Shaped(c, r.0)
  {
    var t := Checked(c, s);
    var at := Holding(t.table, c.locs(e), e, 0);
    if at.Some? then (Put(t, at.value, e, true), None)
    else Displaced(c, t, e, true, None, c.depthLimit)
  }

  ghost function Looked<E(!new)>(c: Config<E>, s: State<E>, e: E, erase: bool): (r: (State<E>, bool))
    requires Ok(c) && Shaped(c, s)
    ensures Shaped(c, r.0)
  {
    var at := Holding(s.table, c.locs(e), e, 0);
    if at.None? then (s, false)
    else if erase then (s.(dead := s.dead[at.value := true]), true)
    else (s, true)
  }
}
