/** The scheduler's TLS configuration cache, keyed by file modification times,
    against certificate bundles that are replaced file by file under it.

    Each path keeps its whole history, so a file version is an index into it and
    the file on disk is the last one.  Every rename, every stat, every read and
    every critical section is one step; calls interleave freely. */
module TlsCache {

  datatype File = File(pair: nat, usable: bool, mtime: int)

  datatype Disk = Disk(certs: seq<File>, keys: seq<File>, cas: seq<File>)

  datatype Sizes = Sizes(cert: nat, key: nat, ca: nat)

  function SizesOf(d: Disk): Sizes { Sizes(|d.certs|, |d.keys|, |d.cas|) }

  /** A certificate and a key load as a pair only when they belong together. */
  predicate Loads(cert: File, key: File) {
    cert.usable && key.usable && cert.pair == key.pair
  }

  /** A configuration, by the versions of the three files it was read from. */
  datatype Config = Config(cert: nat, key: nat, ca: nat)

  /** `stamp` holds the versions whose modification times the cache remembers. */
  datatype Cache = Empty | Cached(config: Config, stamp: Config)

  datatype Why = StatFailed | Missing | ReadFailed | Unpaired(cert: nat, key: nat) | BadCa(ca: nat)

  datatype Result = Hit(config: Config) | Fresh(config: Config) | Fallback(config: Config, why: Why) | Error(why: Why)

  datatype Pc =
    | StatCert | StatKey | StatCa | Check | ReadCert | ReadKey | ReadCa | Publish
    | Returned(result: Result, end: Sizes)

  /** One `getConfig` call; `start` and `warm` record how things stood when it began. */
  datatype Call = Call(pc: Pc, start: Sizes, warm: bool, stat: Config, seen: Cache, read: Config)

  datatype State = State(disk: Disk, cache: Cache, calls: map<nat, Call>)

  predicate SameTimes(d: Disk, a: Config, b: Config)
    requires Within(d, a) && Within(d, b)
  {
    && d.certs[a.cert].mtime == d.certs[b.cert].mtime
    && d.keys[a.key].mtime == d.keys[b.key].mtime
    && d.cas[a.ca].mtime == d.cas[b.ca].mtime
  }

  predicate Within(d: Disk, c: Config) {
    c.cert < |d.certs| && c.key < |d.keys| && c.ca < |d.cas|
  }

  predicate Exists(d: Disk) {
    |d.certs| > 0 && |d.keys| > 0 && |d.cas| > 0
  }

  function Latest(d: Disk): Config
    requires Exists(d)
  {
    Config(|d.certs| - 1, |d.keys| - 1, |d.cas| - 1)
  }

  function NewCall(d: Disk, cache: Cache): Call {
    Call(StatCert, SizesOf(d), cache.Cached? && Exists(d), Config(0, 0, 0), Empty, Config(0, 0, 0))
  }

  function Return(d: Disk, c: Call, r: Result): Call {
    c.(pc := Returned(r, SizesOf(d)))
  }

  /** A failed load falls back to the configuration seen at the check, if any. */
  function GiveUp(d: Disk, c: Call, why: Why): Call {
    Return(d, c, if c.seen.Cached? then Fallback(c.seen.config, why) else Error(why))
  }

  function StatOne(d: Disk, c: Call, size: nat, ok: bool, next: Call): Call {
    if size == 0 then Return(d, c, Error(Missing))
    else if !ok then Return(d, c, Error(StatFailed))
    else next
  }

  /** The next step of a call; `ok` is false when the file operation fails. */
  function Advance(d: Disk, cache: Cache, c: Call, ok: bool): (r: (Cache, Call)) {
    match c.pc
    case StatCert =>
      (cache, StatOne(d, c, |d.certs|, ok, c.(pc := StatKey, stat := c.stat.(cert := LastIndex(d.certs)))))
    case StatKey => (cache, StatOne(d, c, |d.keys|, ok, c.(pc := StatCa, stat := c.stat.(key := LastIndex(d.keys)))))
    case StatCa => (cache, StatOne(d, c, |d.cas|, ok, c.(pc := Check, stat := c.stat.(ca := LastIndex(d.cas)))))
    case Check =>
      if cache.Cached? && Within(d, cache.stamp) && Within(d, c.stat) && SameTimes(d, cache.stamp, c.stat)
      then (cache, Return(d, c.(seen := cache), Hit(cache.config)))
      else (cache, c.(pc := ReadCert, seen := cache))
    case ReadCert =>
      if !ok || |d.certs| == 0 then (cache, GiveUp(d, c, ReadFailed))
      else (cache, c.(pc := ReadKey, read := c.read.(cert := LastIndex(d.certs))))
    case ReadKey =>
      if !ok || |d.keys| == 0 then (cache, GiveUp(d, c, ReadFailed))
      else
        var key := LastIndex(d.keys);
        if c.read.cert < |d.certs| && Loads(d.certs[c.read.cert], d.keys[key])
        then (cache, c.(pc := ReadCa, read := c.read.(key := key)))
        else (cache, GiveUp(d, c, Unpaired(c.read.cert, key)))
    case ReadCa =>
      if !ok || |d.cas| == 0 then (cache, GiveUp(d, c, ReadFailed))
      else
        var ca := LastIndex(d.cas);
        if d.cas[ca].usable then (cache, c.(pc := Publish, read := c.read.(ca := ca)))
        else (cache, GiveUp(d, c, BadCa(ca)))
    case Publish => (Cached(c.read, c.stat), Return(d, c, Fresh(c.read)))
    case Returned(_, _) => (cache, c)
  }

  function LastIndex(files: seq<File>): nat {
    if files == [] then 0 else |files| - 1
  }

  // ------------------------------------------------------------------ the machine

  datatype Path = CertPath | KeyPath | CaPath

  datatype Action = Rename(path: Path, file: File) | Begin(id: nat) | Step(id: nat, ok: bool)

  function Renamed(d: Disk, path: Path, file: File): Disk {
    match path
    case CertPath => d.(certs := d.certs + [file])
    case KeyPath => d.(keys := d.keys + [file])
    case CaPath => d.(cas := d.cas + [file])
  }

  predicate NewTime(files: seq<File>, mtime: int) {
    forall v :: 0 <= v < |files| ==> files[v].mtime != mtime
  }

  /** A rename may install any file, with any modification time. */
  predicate Enabled(s: State, a: Action) {
    match a
    case Rename(_, _) => true
    case Begin(id) => id !in s.calls
    case Step(id, _) => id in s.calls
  }

  function Apply(s: State, a: Action): State
    requires Enabled(s, a)
  {
    match a
    case Rename(path, file) => s.(disk := Renamed(s.disk, path, file))
    case Begin(id) => s.(calls := s.calls[id := NewCall(s.disk, s.cache)])
    case Step(id, ok) =>
      var (cache, call) := Advance(s.disk, s.cache, s.calls[id], ok);
      s.(cache := cache, calls := s.calls[id := call])
  }

  ghost predicate IsRun(actions: seq<Action>, states: seq<State>) {
    && |states| == |actions| + 1
    && states[0].cache == Empty && states[0].calls == map[]
    && forall j :: 0 <= j < |actions| ==>
         Enabled(states[j], actions[j]) && states[j + 1] == Apply(states[j], actions[j])
  }

  ghost predicate Distinct(files: seq<File>) {
    forall v, w :: 0 <= v < w < |files| ==> files[v].mtime != files[w].mtime
  }

  ghost predicate DistinctTimes(d: Disk) {
    Distinct(d.certs) && Distinct(d.keys) && Distinct(d.cas)
  }

  // ------------------------------------------------------------------- invariant

  predicate AtMost(a: Config, b: Config) {
    a.cert <= b.cert && a.key <= b.key && a.ca <= b.ca
  }

  /** A usable configuration: its certificate and key belong together. */
  ghost predicate Good(d: Disk, c: Config) {
    Within(d, c) && Loads(d.certs[c.cert], d.keys[c.key]) && d.cas[c.ca].usable
  }

  ghost predicate CacheInv(d: Disk, cache: Cache) {
    cache.Cached? ==> Good(d, cache.config) && AtMost(cache.stamp, cache.config)
  }

  function Progress(pc: Pc): nat {
    match pc
    case StatCert => 0 case StatKey => 1 case StatCa => 2 case Check => 3
    case ReadCert => 4 case ReadKey => 5 case ReadCa => 6 case Publish => 7
    case Returned(_, _) => 8
  }

  /** Where a value read between `start` and now must lie. */
  predicate Between(start: nat, v: nat, now: nat) {
    start <= v + 1 && v < now
  }

  ghost predicate RunningInv(d: Disk, c: Call) {
    var p := Progress(c.pc);
    && (p >= 1 ==> Between(c.start.cert, c.stat.cert, |d.certs|))
    && (p >= 2 ==> Between(c.start.key, c.stat.key, |d.keys|))
    && (p >= 3 ==> Between(c.start.ca, c.stat.ca, |d.cas|))
    && (p >= 5 ==> c.stat.cert <= c.read.cert < |d.certs|)
    && (p >= 6 ==> c.stat.key <= c.read.key < |d.keys| && Loads(d.certs[c.read.cert], d.keys[c.read.key]))
    && (p >= 7 ==> c.stat.ca <= c.read.ca < |d.cas| && d.cas[c.read.ca].usable)
    && CacheInv(d, c.seen)
  }

  /** What a finished call returned, by kind. */
  ghost predicate ReturnedInv(d: Disk, c: Call, r: Result, end: Sizes) {
    && end.cert <= |d.certs| && end.key <= |d.keys| && end.ca <= |d.cas|
    && match r
       case Hit(cfg) => HitInv(d, c, cfg, end)
       case Fresh(cfg) => Served(d, c, cfg, end)
       case Fallback(cfg, why) => Good(d, cfg) && WhyInv(d, c, why, end)
       case Error(why) => WhyInv(d, c, why, end)
  }

  /** Nothing older than what the call saw at its stats, nothing newer than the disk at return. */
  ghost predicate Served(d: Disk, c: Call, cfg: Config, end: Sizes) {
    && Good(d, cfg)
    && Between(c.start.cert, c.stat.cert, end.cert) && c.stat.cert <= cfg.cert < end.cert
    && Between(c.start.key, c.stat.key, end.key) && c.stat.key <= cfg.key < end.key
    && Between(c.start.ca, c.stat.ca, end.ca) && c.stat.ca <= cfg.ca < end.ca
  }

  /** A hit is at least as new as versions with the very modification times the
      call saw. */
  ghost predicate HitInv(d: Disk, c: Call, cfg: Config, end: Sizes) {
    && Good(d, cfg) && cfg.cert < end.cert && cfg.key < end.key && cfg.ca < end.ca
    && Between(c.start.cert, c.stat.cert, end.cert) && Between(c.start.key, c.stat.key, end.key)
    && Between(c.start.ca, c.stat.ca, end.ca)
    && c.seen.Cached? && AtMost(c.seen.stamp, cfg)
    && Within(d, c.seen.stamp) && Within(d, c.stat) && SameTimes(d, c.seen.stamp, c.stat)
  }

  ghost predicate WhyInv(d: Disk, c: Call, why: Why, end: Sizes) {
    match why
    case StatFailed => true
    case ReadFailed => true
    case Missing => c.start.cert == 0 || c.start.key == 0 || c.start.ca == 0
    case Unpaired(cert, key) =>
      Between(c.start.cert, cert, end.cert) && Between(c.start.key, key, end.key) &&
      end.cert <= |d.certs| && end.key <= |d.keys| && !Loads(d.certs[cert], d.keys[key])
    case BadCa(ca) => Between(c.start.ca, ca, end.ca) && end.ca <= |d.cas| && !d.cas[ca].usable
  }

  ghost predicate CallInv(d: Disk, cache: Cache, c: Call) {
    && c.start.cert <= |d.certs| && c.start.key <= |d.keys| && c.start.ca <= |d.cas|
    && (c.warm ==> cache.Cached? && c.start.cert > 0 && c.start.key > 0 && c.start.ca > 0)
    && (c.warm && 4 <= Progress(c.pc) < 8 ==> c.seen.Cached?)
    && if c.pc.Returned?
       then ReturnedInv(d, c, c.pc.result, c.pc.end) && (c.warm && c.pc.result.Error? ==> c.pc.result.why.StatFailed?)
       else RunningInv(d, c)
  }

  ghost predicate Inv(s: State) {
    && CacheInv(s.disk, s.cache)
    && forall id :: id in s.calls ==> CallInv(s.disk, s.cache, s.calls[id])
  }

  /** `d'` extends the histories of `d`. */
  ghost predicate Grows(d: Disk, d': Disk) {
    d.certs <= d'.certs && d.keys <= d'.keys && d.cas <= d'.cas
  }

  lemma GoodGrows(d: Disk, d': Disk, c: Config)
    requires Grows(d, d')
    ensures Good(d, c) ==> Good(d', c)
  {
  }

  lemma SameTimesGrows(d: Disk, d': Disk, a: Config, b: Config)
    requires Grows(d, d') && Within(d, a) && Within(d, b) && SameTimes(d, a, b)
    ensures Within(d', a) && Within(d', b) && SameTimes(d', a, b)
  {
  }

  lemma ReturnedGrows(d: Disk, d': Disk, c: Call, r: Result, end: Sizes)
    requires Grows(d, d') && ReturnedInv(d, c, r, end)
    ensures ReturnedInv(d', c, r, end)
  {
    match r
    case Hit(cfg) =>
      GoodGrows(d, d', cfg);
      SameTimesGrows(d, d', c.seen.stamp, c.stat);
    case Fresh(cfg) => GoodGrows(d, d', cfg);
    case Fallback(cfg, _) => GoodGrows(d, d', cfg);
    case Error(_) =>
  }

  lemma CallInvGrows(d: Disk, d': Disk, cache: Cache, cache': Cache, c: Call)
    requires Grows(d, d') && CallInv(d, cache, c) && (cache.Cached? ==> cache'.Cached?)
    ensures CallInv(d', cache', c)
  {
    if c.pc.Returned? {
      ReturnedGrows(d, d', c, c.pc.result, c.pc.end);
    } else if c.seen.Cached? {
      GoodGrows(d, d', c.seen.config);
    }
  }

  ghost predicate AdvanceKeeps(d: Disk, cache: Cache, c: Call, ok: bool) {
    var (cache', c') := Advance(d, cache, c, ok);
    CacheInv(d, cache') && CallInv(d, cache', c') && (cache.Cached? ==> cache'.Cached?)
  }

  lemma StatCertInv(d: Disk, cache: Cache, c: Call, ok: bool)
    requires CacheInv(d, cache) && CallInv(d, cache, c)
    requires c.pc.StatCert?
    ensures AdvanceKeeps(d, cache, c, ok)
  {
  }

  lemma StatKeyInv(d: Disk, cache: Cache, c: Call, ok: bool)
    requires CacheInv(d, cache) && CallInv(d, cache, c)
    requires c.pc.StatKey?
    ensures AdvanceKeeps(d, cache, c, ok)
  {
  }

  lemma StatCaInv(d: Disk, cache: Cache, c: Call, ok: bool)
    requires CacheInv(d, cache) && CallInv(d, cache, c)
    requires c.pc.StatCa?
    ensures AdvanceKeeps(d, cache, c, ok)
  {
  }

  lemma CheckInv(d: Disk, cache: Cache, c: Call, ok: bool)
    requires CacheInv(d, cache) && CallInv(d, cache, c)
    requires c.pc.Check?
    ensures AdvanceKeeps(d, cache, c, ok)
  {
  }

  lemma ReadCertInv(d: Disk, cache: Cache, c: Call, ok: bool)
    requires CacheInv(d, cache) && CallInv(d, cache, c)
    requires c.pc.ReadCert?
    ensures AdvanceKeeps(d, cache, c, ok)
  {
  }

  lemma ReadKeyInv(d: Disk, cache: Cache, c: Call, ok: bool)
    requires CacheInv(d, cache) && CallInv(d, cache, c)
    requires c.pc.ReadKey?
    ensures AdvanceKeeps(d, cache, c, ok)
  {
  }

  lemma ReadCaInv(d: Disk, cache: Cache, c: Call, ok: bool)
    requires CacheInv(d, cache) && CallInv(d, cache, c)
    requires c.pc.ReadCa?
    ensures AdvanceKeeps(d, cache, c, ok)
  {
  }

  lemma PublishInv(d: Disk, cache: Cache, c: Call, ok: bool)
    requires CacheInv(d, cache) && CallInv(d, cache, c)
    requires c.pc.Publish? || c.pc.Returned?
    ensures AdvanceKeeps(d, cache, c, ok)
  {
  }

  lemma AdvanceInv(d: Disk, cache: Cache, c: Call, ok: bool)
    requires CacheInv(d, cache) && CallInv(d, cache, c)
    ensures AdvanceKeeps(d, cache, c, ok)
  {
    match c.pc
    case StatCert => StatCertInv(d, cache, c, ok);
    case StatKey => StatKeyInv(d, cache, c, ok);
    case StatCa => StatCaInv(d, cache, c, ok);
    case Check => CheckInv(d, cache, c, ok);
    case ReadCert => ReadCertInv(d, cache, c, ok);
    case ReadKey => ReadKeyInv(d, cache, c, ok);
    case ReadCa => ReadCaInv(d, cache, c, ok);
    case _ => PublishInv(d, cache, c, ok);
  }

  lemma StepInv(s: State, a: Action)
    requires Inv(s) && Enabled(s, a)
    ensures Inv(Apply(s, a))
  {
    var s' := Apply(s, a);
    match a
    case Rename(path, file) =>
      forall id | id in s.calls ensures CallInv(s'.disk, s'.cache, s.calls[id]) {
        CallInvGrows(s.disk, s'.disk, s.cache, s'.cache, s.calls[id]);
      }
    case Begin(id) =>
    case Step(id, ok) =>
      AdvanceInv(s.disk, s.cache, s.calls[id], ok);
      forall o | o in s.calls && o != id ensures CallInv(s'.disk, s'.cache, s.calls[o]) {
        CallInvGrows(s.disk, s'.disk, s.cache, s'.cache, s.calls[o]);
      }
  }

  lemma {:induction false} RunInv(actions: seq<Action>, states: seq<State>, n: nat)
    requires IsRun(actions, states) && n <= |actions|
    ensures Inv(states[n])
  {
    if n > 0 {
      RunInv(actions, states, n - 1);
      StepInv(states[n - 1], actions[n - 1]);
      assert states[n] == Apply(states[n - 1], actions[n - 1]);
    }
  }

  // -------------------------------------------------------------------- theorems

  /** In every interleaving and whatever the modification times, what a call
      returns pairs a certificate with its own key and a usable CA.  A freshly
      loaded configuration is at least as new as the files the call saw when it
      looked; a hit is at least as new as versions with the same modification
      times, and so as the files it saw when no path had one time twice. */
  lemma ServedConfigsAreSound(actions: seq<Action>, states: seq<State>, n: nat, id: nat)
    requires IsRun(actions, states) && n <= |actions|
    requires id in states[n].calls && states[n].calls[id].pc.Returned? && !states[n].calls[id].pc.result.Error?
    ensures
      var c, d := states[n].calls[id], states[n].disk;
      && Good(d, c.pc.result.config)
      && (c.pc.result.Fresh? ==> AtMost(c.stat, c.pc.result.config))
      && (c.pc.result.Hit? ==>
            && c.seen.Cached? && Within(d, c.seen.stamp) && Within(d, c.stat)
            && SameTimes(d, c.seen.stamp, c.stat) && AtMost(c.seen.stamp, c.pc.result.config)
            && (DistinctTimes(d) ==> AtMost(c.stat, c.pc.result.config)))
  {
    RunInv(actions, states, n);
    var c, d := states[n].calls[id], states[n].disk;
    assert CallInv(d, states[n].cache, c);
    if c.pc.result.Hit? && DistinctTimes(d) { SameVersion(d, c.seen.stamp, c.stat); }
  }

  lemma SameVersion(d: Disk, a: Config, b: Config)
    requires DistinctTimes(d) && Within(d, a) && Within(d, b) && SameTimes(d, a, b)
    ensures a == b
  {
  }

  lemma AdvanceKeepsStart(d: Disk, cache: Cache, c: Call, ok: bool)
    ensures Advance(d, cache, c, ok).1.start == c.start && Advance(d, cache, c, ok).1.warm == c.warm
  {
  }

  lemma StepKeepsStart(s: State, a: Action, id: nat)
    requires Enabled(s, a) && id in s.calls
    ensures id in Apply(s, a).calls
    ensures Apply(s, a).calls[id].start == s.calls[id].start && Apply(s, a).calls[id].warm == s.calls[id].warm
  {
    if a.Step? { AdvanceKeepsStart(s.disk, s.cache, s.calls[a.id], a.ok); }
  }

  lemma {:induction false} CallStarted(actions: seq<Action>, states: seq<State>, b: nat, n: nat, id: nat)
    requires IsRun(actions, states) && b < n <= |actions| && actions[b] == Begin(id)
    ensures id in states[n].calls
    ensures states[n].calls[id].start == SizesOf(states[b].disk)
    ensures states[n].calls[id].warm == (states[b].cache.Cached? && Exists(states[b].disk))
  {
    assert states[b + 1] == Apply(states[b], actions[b]);
    if b + 1 < n {
      CallStarted(actions, states, b, n - 1, id);
      assert states[n] == Apply(states[n - 1], actions[n - 1]);
      StepKeepsStart(states[n - 1], actions[n - 1], id);
    }
  }

  lemma {:induction false} NoRenameSameDisk(actions: seq<Action>, states: seq<State>, b: nat, n: nat)
    requires IsRun(actions, states) && b <= n <= |actions|
    requires forall j :: b <= j < n ==> !actions[j].Rename?
    ensures states[n].disk == states[b].disk
  {
    if b < n {
      NoRenameSameDisk(actions, states, b, n - 1);
      assert states[n] == Apply(states[n - 1], actions[n - 1]);
    }
  }

  ghost predicate IoFailed(r: Result) {
    (r.Fallback? || r.Error?) && (r.why.StatFailed? || r.why.ReadFailed?)
  }

  ghost predicate Unfailed(c: Call) {
    c.pc.Returned? ==> !IoFailed(c.pc.result)
  }

  lemma AdvanceWithoutFailure(d: Disk, cache: Cache, c: Call)
    requires CallInv(d, cache, c) && Unfailed(c)
    ensures Unfailed(Advance(d, cache, c, true).1)
  {
  }

  lemma StepWithoutFailure(s: State, a: Action, id: nat)
    requires Inv(s) && Enabled(s, a) && id in s.calls && Unfailed(s.calls[id]) && (a.Step? && a.id == id ==> a.ok)
    ensures id in Apply(s, a).calls && Unfailed(Apply(s, a).calls[id])
  {
    assert CallInv(s.disk, s.cache, s.calls[id]);
    if a.Step? && a.id == id {
      AdvanceWithoutFailure(s.disk, s.cache, s.calls[id]);
    } else {
      assert Apply(s, a).calls[id] == s.calls[id];
    }
  }

  lemma BeginUnfailed(s: State, id: nat)
    requires Enabled(s, Begin(id))
    ensures id in Apply(s, Begin(id)).calls && Unfailed(Apply(s, Begin(id)).calls[id])
  {
  }

  /** If all of its file operations work, a call does not end on a failed one. */
  lemma {:induction false} NoFailure(actions: seq<Action>, states: seq<State>, b: nat, n: nat, id: nat)
    requires IsRun(actions, states) && b < n <= |actions| && actions[b] == Begin(id)
    requires forall j :: b <= j < n && actions[j].Step? && actions[j].id == id ==> actions[j].ok
    ensures id in states[n].calls && Unfailed(states[n].calls[id])
  {
    if b + 1 == n {
      BeginUnfailed(states[b], id);
    } else {
      NoFailure(actions, states, b, n - 1, id);
      RunInv(actions, states, n - 1);
      StepWithoutFailure(states[n - 1], actions[n - 1], id);
    }
  }

  /** On a disk where no path has had one modification time twice, a call during
      which no file is replaced, and whose file operations work, returns exactly
      the bundle on disk if that bundle is usable, however many other calls run
      beside it.  Otherwise it serves nothing newer than before. */
  lemma QuietCallServesDisk(actions: seq<Action>, states: seq<State>, b: nat, n: nat, id: nat)
    requires IsRun(actions, states) && b < n <= |actions| && actions[b] == Begin(id)
    requires forall j :: b <= j < n ==> !actions[j].Rename?
    requires forall j :: b <= j < n && actions[j].Step? && actions[j].id == id ==> actions[j].ok
    requires id in states[n].calls && states[n].calls[id].pc.Returned? && DistinctTimes(states[b].disk)
    ensures
      var d, r := states[b].disk, states[n].calls[id].pc.result;
      && (Exists(d) && Good(d, Latest(d)) ==> (r.Hit? || r.Fresh?) && r.config == Latest(d))
      && (!(Exists(d) && Good(d, Latest(d))) ==> r.Fallback? || r.Error?)
  {
    NoFailure(actions, states, b, n, id);
    RunInv(actions, states, n);
    CallStarted(actions, states, b, n, id);
    NoRenameSameDisk(actions, states, b, n);
    var c, d := states[n].calls[id], states[b].disk;
    assert CallInv(d, states[n].cache, c);
    assert c.start == SizesOf(d);
    if c.pc.result.Hit? { SameVersion(d, c.seen.stamp, c.stat); }
  }

  /** Once a configuration has been cached and the files exist, no later call
      fails, unless the file system refuses a stat. */
  lemma WarmCallsSucceed(actions: seq<Action>, states: seq<State>, b: nat, n: nat, id: nat)
    requires IsRun(actions, states) && b < n <= |actions| && actions[b] == Begin(id)
    requires states[b].cache.Cached? && Exists(states[b].disk)
    requires id in states[n].calls && states[n].calls[id].pc.Returned?
    ensures
      var r := states[n].calls[id].pc.result;
      r.Error? ==> r.why.StatFailed?
  {
    RunInv(actions, states, n);
    CallStarted(actions, states, b, n, id);
  }

  // ------------------------------------------------------------ one call by itself

  /** What the three stats come to: the file versions found, or a refusal. */
  datatype Stats = Stated(stat: Config) | Refused(why: Why)

  /** What loading the three files comes to. */
  datatype Load = Loaded(config: Config) | Failed(why: Why)

  /** Operation `k` finds the disk as `view(k)`, and works if `ok(k)`. */
  function Stat(view: nat -> Disk, ok: nat -> bool): Stats {
    if view(0).certs == [] then Refused(Missing) else if !ok(0) then Refused(StatFailed)
    else if view(1).keys == [] then Refused(Missing) else if !ok(1) then Refused(StatFailed)
    else if view(2).cas == [] then Refused(Missing) else if !ok(2) then Refused(StatFailed)
    else Stated(Config(|view(0).certs| - 1, |view(1).keys| - 1, |view(2).cas| - 1))
  }

  function LoadFiles(view: nat -> Disk, ok: nat -> bool): Load {
    var cert, key, ca := LastIndex(view(4).certs), LastIndex(view(5).keys), LastIndex(view(6).cas);
    if !ok(4) || view(4).certs == [] || !ok(5) || view(5).keys == [] then Failed(ReadFailed)
    else if !Loads(view(4).certs[cert], view(5).keys[key]) then Failed(Unpaired(cert, key))
    else if !ok(6) || view(6).cas == [] then Failed(ReadFailed)
    else if !view(6).cas[ca].usable then Failed(BadCa(ca))
    else Loaded(Config(cert, key, ca))
  }

  function GivesUp(cache: Cache, why: Why): Result {
    if cache.Cached? then Fallback(cache.config, why) else Error(why)
  }

  ghost predicate Growing(view: nat -> Disk) {
    forall i: nat, j: nat :: i <= j ==> Grows(view(i), view(j))
  }

  /** What one call does to the cache and returns, while files are replaced under
      it and operations fail. */
  ghost function Get(view: nat -> Disk, ok: nat -> bool, cache: Cache): (Cache, Result)
    requires Growing(view) && (cache.Cached? ==> Within(view(0), cache.stamp))
  {
    match Stat(view, ok)
    case Refused(why) => (cache, Error(why))
    case Stated(stat) =>
      assert Grows(view(0), view(3)) && Grows(view(1), view(3)) && Grows(view(2), view(3));
      if cache.Cached? && SameTimes(view(3), cache.stamp, stat) then (cache, Hit(cache.config))
      else match LoadFiles(view, ok)
        case Failed(why) => (cache, GivesUp(cache, why))
        case Loaded(config) => (Cached(config, stat), Fresh(config))
  }

  /** The machine's steps of one call, with no other call in between. */
  datatype Trace = Trace(caches: seq<Cache>, calls: seq<Call>)

  ghost predicate StepAt(view: nat -> Disk, ok: nat -> bool, t: Trace, k: nat) {
    && k + 1 < |t.calls| && k + 1 < |t.caches|
    && (t.caches[k + 1], t.calls[k + 1]) == Advance(view(k), t.caches[k], t.calls[k], ok(k))
  }

  ghost predicate IsTrace(view: nat -> Disk, ok: nat -> bool, cache: Cache, t: Trace) {
    && |t.calls| == |t.caches| == 9 && t.caches[0] == cache && t.calls[0] == NewCall(view(0), cache)
    && forall k: nat :: k < 8 ==> StepAt(view, ok, t, k)
  }

  lemma {:induction false} StaysReturned(view: nat -> Disk, ok: nat -> bool, cache: Cache, t: Trace, k: nat, n: nat)
    requires IsTrace(view, ok, cache, t) && k <= n <= 8 && t.calls[k].pc.Returned?
    ensures t.calls[n] == t.calls[k] && t.caches[n] == t.caches[k]
  {
    if k < n {
      StaysReturned(view, ok, cache, t, k, n - 1);
      assert StepAt(view, ok, t, n - 1);
    }
  }

  /** The machine's steps of one call, taken without another call in between, are `Get`. */
  lemma TraceIsGet(view: nat -> Disk, ok: nat -> bool, cache: Cache, t: Trace)
    requires Growing(view) && (cache.Cached? ==> Within(view(0), cache.stamp))
    requires IsTrace(view, ok, cache, t)
    ensures t.calls[8].pc.Returned? && (t.caches[8], t.calls[8].pc.result) == Get(view, ok, cache)
  {
    StatSteps(view, ok, cache, t);
    match Stat(view, ok)
    case Refused(why) =>
    case Stated(stat) =>
      assert Grows(view(0), view(3)) && Grows(view(1), view(3)) && Grows(view(2), view(3));
      assert StepAt(view, ok, t, 3);
      if cache.Cached? && SameTimes(view(3), cache.stamp, stat) {
        StaysReturned(view, ok, cache, t, 4, 8);
      } else {
        LoadSteps(view, ok, cache, t, stat);
      }
  }

  lemma StatSteps(view: nat -> Disk, ok: nat -> bool, cache: Cache, t: Trace)
    requires IsTrace(view, ok, cache, t)
    ensures Stat(view, ok).Refused? ==>
      t.caches[8] == cache && t.calls[8].pc.Returned? && t.calls[8].pc.result == Error(Stat(view, ok).why)
    ensures Stat(view, ok).Stated? ==>
      t.caches[3] == cache && t.calls[3] == t.calls[0].(pc := Check, stat := Stat(view, ok).stat)
  {
    assert StepAt(view, ok, t, 0);
    if t.calls[1].pc.Returned? {
      StaysReturned(view, ok, cache, t, 1, 8);
    } else {
      assert StepAt(view, ok, t, 1);
      if t.calls[2].pc.Returned? {
        StaysReturned(view, ok, cache, t, 2, 8);
      } else {
        assert StepAt(view, ok, t, 2);
        if t.calls[3].pc.Returned? { StaysReturned(view, ok, cache, t, 3, 8); }
      }
    }
  }

  lemma LoadSteps(view: nat -> Disk, ok: nat -> bool, cache: Cache, t: Trace, stat: Config)
    requires IsTrace(view, ok, cache, t) && Grows(view(4), view(5))
    requires t.caches[4] == cache && t.calls[4].pc.ReadCert? && t.calls[4].seen == cache && t.calls[4].stat == stat
    ensures t.calls[8].pc.Returned?
    ensures
      match LoadFiles(view, ok)
      case Failed(why) => t.caches[8] == cache && t.calls[8].pc.result == GivesUp(cache, why)
      case Loaded(config) => t.caches[8] == Cached(config, stat) && t.calls[8].pc.result == Fresh(config)
  {
    assert StepAt(view, ok, t, 4);
    if t.calls[5].pc.Returned? {
      StaysReturned(view, ok, cache, t, 5, 8);
    } else {
      assert StepAt(view, ok, t, 5);
      assert view(5).certs[LastIndex(view(4).certs)] == view(4).certs[LastIndex(view(4).certs)];
      if t.calls[6].pc.Returned? {
        StaysReturned(view, ok, cache, t, 6, 8);
      } else {
        assert StepAt(view, ok, t, 6);
        if t.calls[7].pc.Returned? { StaysReturned(view, ok, cache, t, 7, 8); } else { assert StepAt(view, ok, t, 7); }
      }
    }
  }

  /** What an undisturbed call does to the cache and returns. */
  function QuietGet(d: Disk, cache: Cache): (Cache, Result)
    requires cache.Cached? ==> Within(d, cache.stamp)
  {
    if !Exists(d) then (cache, Error(Missing))
    else
      var now := Latest(d);
      if cache.Cached? && SameTimes(d, cache.stamp, now) then (cache, Hit(cache.config))
      else if !Loads(d.certs[now.cert], d.keys[now.key]) then (cache, GivesUp(cache, Unpaired(now.cert, now.key)))
      else if !d.cas[now.ca].usable then (cache, GivesUp(cache, BadCa(now.ca)))
      else (Cached(now, now), Fresh(now))
  }

  lemma QuietIsGet(view: nat -> Disk, ok: nat -> bool, d: Disk, cache: Cache)
    requires (forall k :: view(k) == d && ok(k)) && (cache.Cached? ==> Within(d, cache.stamp))
    ensures Growing(view) && Get(view, ok, cache) == QuietGet(d, cache)
  {
  }

  /** The times a call saw are those of the versions it saw, also later on. */
  lemma StatTimes(view: nat -> Disk, ok: nat -> bool, k: nat)
    requires Growing(view) && Stat(view, ok).Stated? && k >= 2
    ensures
      var stat := Stat(view, ok).stat;
      && Within(view(k), stat)
      && view(k).certs[stat.cert].mtime == view(0).certs[stat.cert].mtime
      && view(k).keys[stat.key].mtime == view(1).keys[stat.key].mtime
      && view(k).cas[stat.ca].mtime == view(2).cas[stat.ca].mtime
  {
    assert Grows(view(0), view(k)) && Grows(view(1), view(k)) && Grows(view(2), view(k));
  }

  /** The provider object, with the modification times it compares. */
  class DynamicTlsProvider {
    var cached: bool
    var config: Config
    var certModTime: int
    var keyModTime: int
    var caModTime: int

    ghost predicate Represents(d: Disk, cache: Cache)
      reads this
    {
      && cached == cache.Cached?
      && (cache.Cached? ==>
            && Within(d, cache.stamp) && config == cache.config
            && certModTime == d.certs[cache.stamp.cert].mtime
            && keyModTime == d.keys[cache.stamp.key].mtime
            && caModTime == d.cas[cache.stamp.ca].mtime)
    }

    constructor ()
      ensures forall d :: Represents(d, Empty)
    {
      cached, config := false, Config(0, 0, 0);
      certModTime, keyModTime, caModTime := 0, 0, 0;
    }

    lemma RepresentsGrows(d: Disk, d': Disk, cache: Cache)
      requires Represents(d, cache) && Grows(d, d')
      ensures Represents(d', cache)
    {
    }

    method StatFiles(view: nat -> Disk, ok: nat -> bool) returns (r: Stats)
      ensures r == Stat(view, ok)
    {
      if view(0).certs == [] { return Refused(Missing); }
      if !ok(0) { return Refused(StatFailed); }
      if view(1).keys == [] { return Refused(Missing); }
      if !ok(1) { return Refused(StatFailed); }
      if view(2).cas == [] { return Refused(Missing); }
      if !ok(2) { return Refused(StatFailed); }
      return Stated(Config(|view(0).certs| - 1, |view(1).keys| - 1, |view(2).cas| - 1));
    }

    method GetConfig(view: nat -> Disk, ok: nat -> bool, ghost cache: Cache) returns (r: Result)
      requires Represents(view(0), cache) && Growing(view)
      modifies this
      ensures r == Get(view, ok, cache).1 && Represents(view(7), Get(view, ok, cache).0)
    {
      RepresentsGrows(view(0), view(3), cache);
      RepresentsGrows(view(0), view(7), cache);
      var stats := StatFiles(view, ok);
      if stats.Refused? { return Error(stats.why); }
      StatTimes(view, ok, 3);
      StatTimes(view, ok, 7);
      var certTime := view(0).certs[stats.stat.cert].mtime;
      var keyTime := view(1).keys[stats.stat.key].mtime;
      var caTime := view(2).cas[stats.stat.ca].mtime;
      if cached && certModTime == certTime && keyModTime == keyTime && caModTime == caTime {
        return Hit(config);
      }
      var load := LoadFiles(view, ok);
      if load.Failed? { return if cached then Fallback(config, load.why) else Error(load.why); }
      cached, config := true, load.config;
      certModTime, keyModTime, caModTime := certTime, keyTime, caTime;
      return Fresh(load.config);
    }
  }

  // ------------------------------------------------------------- writing a bundle

  datatype Bundle = Bundle(cert: File, key: File, ca: File)

  /** What the writer checks before it touches any file. */
  predicate Valid(b: Bundle) {
    Loads(b.cert, b.key) && b.ca.usable
  }

  /** The disk after the first `k` renames: key, then certificate, then CA. */
  function Written(d: Disk, b: Bundle, k: nat): Disk {
    var d1 := if k >= 1 then Renamed(d, KeyPath, b.key) else d;
    var d2 := if k >= 2 then Renamed(d1, CertPath, b.cert) else d1;
    if k >= 3 then Renamed(d2, CaPath, b.ca) else d2
  }

  /** The write shows in the modification times: nothing is remembered yet, or one
      of the three times differs from the remembered one. */
  predicate Noticed(d: Disk, b: Bundle, cache: Cache)
    requires cache.Cached? ==> Within(d, cache.stamp)
  {
    cache.Cached? ==>
      || b.cert.mtime != d.certs[cache.stamp.cert].mtime
      || b.key.mtime != d.keys[cache.stamp.key].mtime
      || b.ca.mtime != d.cas[cache.stamp.ca].mtime
  }

  /** The next undisturbed call serves a complete write if and only if the write
      shows in the modification times, whatever was cached and whatever state
      earlier aborted writes left.  Otherwise it is a hit on the old configuration. */
  lemma WriteServedIff(d: Disk, b: Bundle, cache: Cache)
    requires Valid(b) && (cache.Cached? ==> Within(d, cache.stamp))
    ensures
      var d' := Written(d, b, 3);
      var (cache', r) := QuietGet(d', cache);
      && (r == Fresh(Latest(d')) <==> Noticed(d, b, cache))
      && (Noticed(d, b, cache) ==> cache' == Cached(Latest(d'), Latest(d')))
      && (!Noticed(d, b, cache) ==>
            && cache.Cached? && cache' == cache && r == Hit(cache.config)
            && (Within(d, cache.config) ==> cache.config != Latest(d')))
      && d'.certs[Latest(d').cert] == b.cert && d'.keys[Latest(d').key] == b.key && d'.cas[Latest(d').ca] == b.ca
  {
  }

  /** An interrupted write of a new key pair breaks the pair on disk only
      between the key's rename and the certificate's; a warm call then keeps
      serving the old configuration. */
  lemma PartialWriteFallsBack(d: Disk, b: Bundle, k: nat, cache: Cache)
    requires Exists(d) && Good(d, Latest(d)) && Valid(b) && b.cert.pair != d.certs[Latest(d).cert].pair && k < 3
    requires cache == Cached(Latest(d), Latest(d)) && DistinctTimes(d)
    requires NewTime(d.keys, b.key.mtime) && NewTime(d.certs, b.cert.mtime)
    ensures
      var r := QuietGet(Written(d, b, k), cache).1;
      && (k == 0 ==> r == Hit(Latest(d)))
      && (k == 1 ==> r.Fallback? && r.config == Latest(d))
      && (k == 2 ==> r == Fresh(Latest(Written(d, b, 2))))
  {
  }

  /** Distinct modification times are needed: a replacement with equal times is
      invisible, and the old configuration is served as a hit. */
  lemma EqualTimesHideReplacement(d: Disk, b: Bundle)
    requires Exists(d) && Good(d, Latest(d))
    requires
      var now := Latest(d);
      && b.cert.mtime == d.certs[now.cert].mtime && b.key.mtime == d.keys[now.key].mtime &&
           b.ca.mtime == d.cas[now.ca].mtime
    ensures
      var cache := QuietGet(d, Empty).0;
      var d' := Written(d, b, 3);
      cache == Cached(Latest(d), Latest(d)) && QuietGet(d', cache).1 == Hit(Latest(d)) && Latest(d) != Latest(d')
  {
  }
}
