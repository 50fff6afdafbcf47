/**
 * The sliding-window login throttle.
 *
 * The limiter is a class over a map of deques; its two methods are proved against
 * functions on that map.  A run of logins, one at a time, folds those functions, and
 * the window budgets are proved about every run.
 */
module LoginThrottle {
  import opened Prelude

  const MAX_RATE_LIMIT_KEYS: nat := 10_000

  /** Budgets as `validate` accepts them; times and the window are in clock ticks. */
  datatype Config = Config(window: nat, maxAccount: nat, maxSource: nat)
  {
    predicate Valid() { window > 0 && maxAccount > 0 && maxSource > 0 }
  }

  type Table = map<string, seq<nat>>

  /** `checked_sub(window).unwrap_or(now)`: before one window has passed, the cutoff is `now` itself. */
  function Cutoff(cfg: Config, now: nat): nat { if now >= cfg.window then now - cfg.window else now }

  // ===== Keys =====

  predicate IsSpace(c: char) { c == ' ' || '\t' <= c <= '\r' }

  function TrimStart(s: string): string { if s != [] && IsSpace(s[0]) then TrimStart(s[1..]) else s }

  function TrimEnd(s: string): string {
    if s != [] && IsSpace(s[|s| - 1]) then TrimEnd(s[..|s| - 1]) else s
  }

  function Lower(s: string): string {
    if s == [] then []
    else [if 'A' <= s[0] <= 'Z' then (s[0] as int + 32) as char else s[0]] + Lower(s[1..])
  }

  function AccountKey(username: string): string { "account:" + Lower(TrimStart(TrimEnd(username))) }

  function SourceKey(source: string): string { "source:" + source }

  function Keys(cfg: Config, username: string, source: Option<string>): seq<(string, nat)> {
    [(AccountKey(username), cfg.maxAccount)] +
    (match source case None => [] case Some(s) => [(SourceKey(s), cfg.maxSource)])
  }

  lemma KeysDiffer(username: string, source: string)
    ensures AccountKey(username) != SourceKey(source)
  {
    assert AccountKey(username)[0] == 'a' && SourceKey(source)[0] == 's';
  }

  // ----- Which usernames are one account -----

  ghost predicate IsBlank(c: char) { c in " \t\n\r" || c == 11 as char || c == 12 as char }

  /** `u[i..j]` is what is left of `u` without the longest runs of blanks at both ends. */
  ghost predicate IsCore(u: string, i: int, j: int) {
    && 0 <= i <= j <= |u|
    && (forall k :: 0 <= k < i || j <= k < |u| ==> IsBlank(u[k]))
    && (i < j ==> !IsBlank(u[i]) && !IsBlank(u[j - 1]))
  }

  /** The same character, or the two cases of one ASCII letter. */
  ghost predicate SameLetter(a: char, b: char) {
    || a == b
    || ('A' <= a <= 'Z' && b as int == a as int + 32)
    || ('A' <= b <= 'Z' && a as int == b as int + 32)
  }

  ghost predicate SameText(s: string, t: string) {
    |s| == |t| && forall k :: 0 <= k < |s| ==> SameLetter(s[k], t[k])
  }

  /** Two usernames that differ in case and surrounding blanks alone. */
  ghost predicate SameAccount(u: string, v: string) {
    exists i, j, m, n :: IsCore(u, i, j) && IsCore(v, m, n) && SameText(u[i..j], v[m..n])
  }

  lemma BlankIsSpace(c: char)
    ensures IsSpace(c) <==> IsBlank(c)
  {
  }

  lemma {:induction false} TrimEndIs(s: string) returns (j: nat)
    ensures j <= |s| && TrimEnd(s) == s[..j]
    ensures (forall k :: j <= k < |s| ==> IsBlank(s[k])) && (j > 0 ==> !IsBlank(s[j - 1]))
  {
    if s != [] && IsSpace(s[|s| - 1]) {
      j := TrimEndIs(s[..|s| - 1]);
      BlankIsSpace(s[|s| - 1]);
    } else {
      j := |s|;
      if s != [] { BlankIsSpace(s[|s| - 1]); }
    }
  }

  lemma {:induction false} TrimStartIs(s: string) returns (i: nat)
    ensures i <= |s| && TrimStart(s) == s[i..]
    ensures (forall k :: 0 <= k < i ==> IsBlank(s[k])) && (i < |s| ==> !IsBlank(s[i]))
  {
    if s != [] && IsSpace(s[0]) {
      BlankIsSpace(s[0]);
      var rest := TrimStartIs(s[1..]);
      i := rest + 1;
      assert forall k :: 0 < k < i ==> s[k] == s[1..][k - 1];
    } else {
      i := 0;
      if s != [] { BlankIsSpace(s[0]); }
    }
  }

  /** Trimming leaves the core. */
  lemma TrimIsCore(u: string) returns (i: nat, j: nat)
    ensures IsCore(u, i, j) && TrimStart(TrimEnd(u)) == u[i..j]
  {
    hide TrimStart, TrimEnd, IsBlank;
    j := TrimEndIs(u);
    i := TrimStartIs(u[..j]);
    assert forall k :: 0 <= k < j ==> u[..j][k] == u[k];
  }

  lemma CoreIsUnique(u: string, i: int, j: int, m: int, n: int)
    requires IsCore(u, i, j) && IsCore(u, m, n)
    ensures u[i..j] == u[m..n]
  {
    hide IsBlank;
  }

  function Fold(c: char): char { if 'A' <= c <= 'Z' then (c as int + 32) as char else c }

  lemma FoldsAlike(a: char, b: char)
    ensures Fold(a) == Fold(b) <==> SameLetter(a, b)
  {
  }

  lemma {:induction false} LowerFolds(s: string)
    ensures |Lower(s)| == |s| && forall k :: 0 <= k < |s| ==> Lower(s)[k] == Fold(s[k])
  {
    if s == [] {
    } else {
      LowerFolds(s[1..]);
    }
  }

  lemma LowerAlike(s: string, t: string)
    ensures Lower(s) == Lower(t) <==> SameText(s, t)
  {
    hide Lower, Fold, SameLetter;
    LowerFolds(s);
    LowerFolds(t);
    forall k | 0 <= k < |s| && k < |t| ensures Lower(s)[k] == Lower(t)[k] <==> SameLetter(s[k], t[k]) {
      FoldsAlike(s[k], t[k]);
    }
  }

  /** The key of an account determines it, up to case and surrounding blanks, and is determined by it. */
  lemma AccountKeyExact(u: string, v: string)
    ensures AccountKey(u) == AccountKey(v) <==> SameAccount(u, v)
  {
    var i, j := TrimIsCore(u);
    var m, n := TrimIsCore(v);
    var s, t := TrimStart(TrimEnd(u)), TrimStart(TrimEnd(v));
    assert AccountKey(u)[8..] == Lower(s) && AccountKey(v)[8..] == Lower(t);
    LowerAlike(s, t);
    hide TrimStart, TrimEnd, Lower, IsCore, SameText;
    if SameAccount(u, v) {
      var i', j', m', n' :| IsCore(u, i', j') && IsCore(v, m', n') && SameText(u[i'..j'], v[m'..n']);
      CoreIsUnique(u, i, j, i', j');
      CoreIsUnique(v, m, n, m', n');
    }
  }

  // ===== Expiry =====

  function Fresh(entries: seq<nat>, cutoff: nat): (r: seq<nat>)
    ensures |r| <= |entries|
  {
    if entries != [] && entries[0] < cutoff then Fresh(entries[1..], cutoff) else entries
  }

  /** What expiry leaves is the end of the deque from the first entry that has not expired. */
  lemma {:induction false} FreshIsSuffix(entries: seq<nat>, cutoff: nat)
    ensures var r := Fresh(entries, cutoff);
            && r == entries[|entries| - |r|..]
            && (forall i :: 0 <= i < |entries| - |r| ==> entries[i] < cutoff)
            && (r != [] ==> r[0] >= cutoff)
  {
    if entries != [] && entries[0] < cutoff { FreshIsSuffix(entries[1..], cutoff); }
  }

  /** Popping from the front while the front is expired. */
  method Expire(entries: seq<nat>, cutoff: nat) returns (r: seq<nat>)
    ensures r == Fresh(entries, cutoff)
  {
    r := entries;
    while r != [] && r[0] < cutoff
      invariant Fresh(r, cutoff) == Fresh(entries, cutoff)
      decreases |r|
    {
      r := r[1..];
    }
  }

  /** When the table is full, keys whose latest entry has expired are dropped. */
  function Retained(t: Table, cutoff: nat): Table {
    if |t| >= MAX_RATE_LIMIT_KEYS then map k | k in t && t[k] != [] && t[k][|t[k]| - 1] >= cutoff :: t[k] else t
  }

  // ===== Checking an attempt =====

  function ExpireKeys(t: Table, keys: seq<(string, nat)>, cutoff: nat): Table {
    if keys == [] then t
    else
      var rest := ExpireKeys(t, keys[..|keys| - 1], cutoff);
      var k := keys[|keys| - 1].0;
      if k in rest then rest[k := Fresh(rest[k], cutoff)] else rest
  }

  /** The wait that a key with these unexpired entries asks for: until its oldest entry has left the window. */
  function EntryWait(cfg: Config, e: seq<nat>, limit: nat, now: nat): Option<nat> {
    if |e| < limit || e == [] then None
    else Some(if e[0] + cfg.window >= now then e[0] + cfg.window - now else 0)
  }

  function KeyWait(cfg: Config, t: Table, key: string, limit: nat, now: nat): Option<nat> {
    if key in t then EntryWait(cfg, Fresh(t[key], Cutoff(cfg, now)), limit, now) else None
  }

  function Longer(a: Option<nat>, b: Option<nat>): Option<nat> {
    match (a, b)
    case (None, _) => b
    case (_, None) => a
    case (Some(x), Some(y)) => Some(if x >= y then x else y)
  }

  function LongestWait(cfg: Config, t: Table, keys: seq<(string, nat)>, now: nat): Option<nat> {
    if keys == [] then None
    else
      var (key, limit) := keys[|keys| - 1];
      Longer(LongestWait(cfg, t, keys[..|keys| - 1], now), KeyWait(cfg, t, key, limit, now))
  }

  predicate Saturated(t: Table, keys: seq<(string, nat)>) {
    |t| >= MAX_RATE_LIMIT_KEYS && exists i :: 0 <= i < |keys| && keys[i].0 !in t
  }

  function Checked(cfg: Config, t: Table, keys: seq<(string, nat)>, now: nat): (Table, Option<nat>) {
    var t1 := Retained(t, Cutoff(cfg, now));
    if Saturated(t1, keys) then (t1, Some(cfg.window))
    else (ExpireKeys(t1, keys, Cutoff(cfg, now)), LongestWait(cfg, t1, keys, now))
  }

  // ===== Recording a failure =====

  function RecordOne(t: Table, key: string, limit: nat, now: nat, cutoff: nat): Table {
    if key in t then
      var e := Fresh(t[key], cutoff);
      t[key := if |e| < limit then e + [now] else e]
    else if |t| < MAX_RATE_LIMIT_KEYS then t[key := [now]]
    else t
  }

  function RecordKeys(t: Table, keys: seq<(string, nat)>, now: nat, cutoff: nat): Table {
    if keys == [] then t
    else
      var (key, limit) := keys[|keys| - 1];
      RecordOne(RecordKeys(t, keys[..|keys| - 1], now, cutoff), key, limit, now, cutoff)
  }

  function Recorded(cfg: Config, t: Table, keys: seq<(string, nat)>, now: nat): Table {
    RecordKeys(Retained(t, Cutoff(cfg, now)), keys, now, Cutoff(cfg, now))
  }

  // ===== The limiter =====

  lemma NextKeyUnfolds(cfg: Config, t: Table, keys: seq<(string, nat)>, i: nat, now: nat)
    requires i < |keys|
    ensures var (key, limit) := keys[i];
            var rest := ExpireKeys(t, keys[..i], Cutoff(cfg, now));
            && ExpireKeys(t, keys[..i + 1], Cutoff(cfg, now)) ==
                 (if key in rest then rest[key := Fresh(rest[key], Cutoff(cfg, now))] else rest)
            && LongestWait(cfg, t, keys[..i + 1], now) ==
                 Longer(LongestWait(cfg, t, keys[..i], now), KeyWait(cfg, t, key, limit, now))
  {
    assert keys[..i + 1][..i] == keys[..i] && keys[..i + 1][i] == keys[i];
  }

  lemma NoKeysLeft(cfg: Config, t: Table, cutoff: nat, now: nat)
    ensures ExpireKeys(t, [], cutoff) == t && LongestWait(cfg, t, [], now) == None
  {
  }

  lemma NextRecord(t: Table, keys: seq<(string, nat)>, i: nat, now: nat, cutoff: nat)
    requires i < |keys|
    ensures RecordKeys(t, keys[..i + 1], now, cutoff) ==
              RecordOne(RecordKeys(t, keys[..i], now, cutoff), keys[i].0, keys[i].1, now, cutoff)
  {
    assert keys[..i + 1][..i] == keys[..i] && keys[..i + 1][i] == keys[i];
  }

  /** One or two distinct keys, with positive limits. */
  ghost predicate KeysOk(keys: seq<(string, nat)>) {
    && (forall i, j :: 0 <= i < j < |keys| ==> keys[i].0 != keys[j].0)
    && (forall i :: 0 <= i < |keys| ==> keys[i].1 > 0)
  }

  lemma KeysAreOk(cfg: Config, username: string, source: Option<string>)
    requires cfg.Valid()
    ensures KeysOk(Keys(cfg, username, source))
  {
    if source.Some? { KeysDiffer(username, source.value); }
  }

  /** Expiring earlier keys does not touch a later one. */
  lemma {:induction false} LaterKeyUntouched(t: Table, keys: seq<(string, nat)>, i: nat, j: nat, cutoff: nat)
    requires KeysOk(keys) && i <= j < |keys|
    ensures var rest := ExpireKeys(t, keys[..i], cutoff);
            (keys[j].0 in rest <==> keys[j].0 in t) && (keys[j].0 in t ==> rest[keys[j].0] == t[keys[j].0])
  {
    if i == 0 {
    } else {
      LaterKeyUntouched(t, keys, i - 1, j, cutoff);
      assert keys[..i][..i - 1] == keys[..i - 1] && keys[..i][i - 1] == keys[i - 1];
    }
  }

  class LoginRateLimiter {
    var failures: Table
    const cfg: Config

    constructor (cfg: Config)
      ensures this.cfg == cfg && failures == map[]
    {
      this.cfg := cfg;
      failures := map[];
    }

    method RetryAfter(username: string, source: Option<string>, now: nat) returns (wait: Option<nat>)
      requires cfg.Valid()
      modifies this
      ensures (failures, wait) == Checked(cfg, old(failures), Keys(cfg, username, source), now)
    {
      KeysAreOk(cfg, username, source);
      hide Keys, Retained, ExpireKeys, LongestWait, Fresh, Cutoff, Saturated, EntryWait;
      var cutoff := Cutoff(cfg, now);
      var keys := Keys(cfg, username, source);
      failures := Retained(failures, cutoff);
      if Saturated(failures, keys) {
        return Some(cfg.window);
      }
      ghost var t1 := failures;
      wait := None;
      var i := 0;
      assert ExpireKeys(t1, [], cutoff) == t1 &&
        LongestWait(cfg, t1, [], now) == None by { NoKeysLeft(cfg, t1, cutoff, now); }
      assert keys[..0] == [];
      while i < |keys|
        invariant 0 <= i <= |keys|
        invariant failures == ExpireKeys(t1, keys[..i], cutoff)
        invariant wait == LongestWait(cfg, t1, keys[..i], now)
      {
        var (key, limit) := keys[i];
        NextKeyUnfolds(cfg, t1, keys, i, now);
        LaterKeyUntouched(t1, keys, i, i, cutoff);
        if key in failures {
          var e := Expire(failures[key], cutoff);
          failures := failures[key := e];
          wait := Longer(wait, EntryWait(cfg, e, limit, now));
        }
        i := i + 1;
      }
      assert keys[..i] == keys;
    }

    method RecordFailure(username: string, source: Option<string>, now: nat)
      modifies this
      ensures failures == Recorded(cfg, old(failures), Keys(cfg, username, source), now)
    {
      var cutoff := Cutoff(cfg, now);
      var keys := Keys(cfg, username, source);
      failures := Retained(failures, cutoff);
      ghost var t1 := failures;
      var i := 0;
      assert keys[..0] == [];
      assert RecordKeys(t1, [], now, cutoff) == t1;
      hide Keys, Retained, RecordKeys, Fresh, Cutoff;
      while i < |keys|
        invariant 0 <= i <= |keys|
        invariant failures == RecordKeys(t1, keys[..i], now, cutoff)
      {
        var (key, limit) := keys[i];
        NextRecord(t1, keys, i, now, cutoff);
        var room := |failures| < MAX_RATE_LIMIT_KEYS;
        if key in failures {
          var e := Expire(failures[key], cutoff);
          failures := failures[key := if |e| < limit then e + [now] else e];
        } else if room {
          failures := failures[key := [now]];
        }
        i := i + 1;
      }
      assert keys[..i] == keys;
    }

    /** One login: refused before evaluation, or evaluated and charged if rejected. */
    method Login(l: Login) returns (outcome: Outcome)
      requires cfg.Valid()
      modifies this
      ensures (failures, outcome) == LoginStep(cfg, old(failures), l)
    {
      var wait := RetryAfter(l.username, l.source, l.checkedAt);
      if wait.Some? {
        return Refused(wait.value);
      }
      if l.lockedOut {
        return LockedOut;
      }
      if l.rejected {
        RecordFailure(l.username, l.source, l.recordedAt);
        return Rejected;
      }
      return Accepted;
    }
  }

  // ===== Runs =====

  /** A login with the times at which the limiter is consulted and, if it comes to that, charged. */
  datatype Login = Login(username: string, source: Option<string>, checkedAt: nat, recordedAt: nat,
                         lockedOut: bool, rejected: bool)

  datatype Outcome = Refused(wait: nat) | LockedOut | Rejected | Accepted

  function LoginStep(cfg: Config, t: Table, l: Login): (Table, Outcome) {
    var keys := Keys(cfg, l.username, l.source);
    var (t1, wait) := Checked(cfg, t, keys, l.checkedAt);
    if wait.Some? then (t1, Refused(wait.value))
    else if l.lockedOut then (t1, LockedOut)
    else if l.rejected then (Recorded(cfg, t1, keys, l.recordedAt), Rejected)
    else (t1, Accepted)
  }

  function TableAfter(cfg: Config, run: seq<Login>): Table {
    if run == [] then map[] else LoginStep(cfg, TableAfter(cfg, run[..|run| - 1]), run[|run| - 1]).0
  }

  predicate Charges(cfg: Config, l: Login, key: string) {
    key == AccountKey(l.username) || (l.source.Some? && key == SourceKey(l.source.value))
  }

  /** The times of the evaluated failures charged to `key`. */
  function FailuresOf(cfg: Config, run: seq<Login>, key: string): seq<nat> {
    if run == [] then []
    else
      var (before, l) := (run[..|run| - 1], run[|run| - 1]);
      FailuresOf(cfg, before, key) +
      (if LoginStep(cfg, TableAfter(cfg, before), l).1 == Rejected && Charges(cfg, l, key) then [l.recordedAt] else [])
  }

  /** The times of the evaluated failures of an account, under all its spellings. */
  ghost function AccountFailures(cfg: Config, run: seq<Login>, username: string): seq<nat> {
    if run == [] then []
    else
      var (before, l) := (run[..|run| - 1], run[|run| - 1]);
      AccountFailures(cfg, before, username) +
      (if LoginStep(cfg, TableAfter(cfg, before), l).1 == Rejected && SameAccount(l.username, username)
       then [l.recordedAt] else [])
  }

  /** The times of the evaluated failures from a source. */
  ghost function SourceFailures(cfg: Config, run: seq<Login>, source: string): seq<nat> {
    if run == [] then []
    else
      var (before, l) := (run[..|run| - 1], run[|run| - 1]);
      SourceFailures(cfg, before, source) +
      (if LoginStep(cfg, TableAfter(cfg, before), l).1 == Rejected && l.source == Some(source)
       then [l.recordedAt] else [])
  }

  lemma SourceKeyInjective(s: string, t: string)
    requires SourceKey(s) == SourceKey(t)
    ensures s == t
  {
    assert SourceKey(s)[7..] == s && SourceKey(t)[7..] == t;
  }

  /** A login charges an account exactly if it spells its name. */
  lemma ChargesAccount(cfg: Config, l: Login, username: string)
    ensures Charges(cfg, l, AccountKey(username)) <==> SameAccount(l.username, username)
  {
    hide AccountKey, SourceKey, SameAccount;
    AccountKeyExact(l.username, username);
    if l.source.Some? { KeysDiffer(username, l.source.value); }
  }

  lemma ChargesSource(cfg: Config, l: Login, source: string)
    ensures Charges(cfg, l, SourceKey(source)) <==> l.source == Some(source)
  {
    hide AccountKey, SourceKey;
    KeysDiffer(l.username, source);
    if l.source.Some? && SourceKey(l.source.value) == SourceKey(source) {
      SourceKeyInjective(l.source.value, source);
    }
  }

  lemma {:induction false} AccountFailuresAre(cfg: Config, run: seq<Login>, username: string)
    ensures AccountFailures(cfg, run, username) == FailuresOf(cfg, run, AccountKey(username))
  {
    hide LoginStep, TableAfter, Charges, SameAccount, AccountKey;
    if run == [] {
    } else {
      AccountFailuresAre(cfg, run[..|run| - 1], username);
      ChargesAccount(cfg, run[|run| - 1], username);
    }
  }

  lemma {:induction false} SourceFailuresAre(cfg: Config, run: seq<Login>, source: string)
    ensures SourceFailures(cfg, run, source) == FailuresOf(cfg, run, SourceKey(source))
  {
    hide LoginStep, TableAfter, Charges, SourceKey;
    if run == [] {
    } else {
      SourceFailuresAre(cfg, run[..|run| - 1], source);
      ChargesSource(cfg, run[|run| - 1], source);
    }
  }

  lemma RunOneMore(cfg: Config, run: seq<Login>, l: Login, key: string)
    ensures var (t, outcome) := LoginStep(cfg, TableAfter(cfg, run), l);
            && TableAfter(cfg, run + [l]) == t
            && FailuresOf(cfg, run + [l], key) ==
                 FailuresOf(cfg, run, key) + if outcome == Rejected && Charges(cfg, l, key) then [l.recordedAt] else []
  {
    assert (run + [l])[..|run|] == run;
  }

  /** One login at a time on a monotone clock. */
  ghost predicate Ordered(run: seq<Login>) {
    && (forall i :: 0 <= i < |run| ==> run[i].checkedAt <= run[i].recordedAt)
    && (forall i, j :: 0 <= i < j < |run| ==> run[i].recordedAt <= run[j].checkedAt)
  }

  /** The same, with no login before `start`. */
  ghost predicate OrderedFrom(start: nat, run: seq<Login>) {
    Ordered(run) && forall i :: 0 <= i < |run| ==> start <= run[i].checkedAt
  }

  /** The first time at which the clock is old enough: a window from the next tick on reaches back to its start. */
  function OldEnough(cfg: Config): nat { if cfg.window > 0 then cfg.window - 1 else 0 }

  // ===== What a deque remembers of the failures charged to its key =====

  function Deque(t: Table, key: string): seq<nat> { if key in t then t[key] else [] }

  /** `d` is the end of the history `h`, and everything before it happened before `floor`. */
  ghost predicate Tracks(d: seq<nat>, h: seq<nat>, limit: nat, floor: int) {
    && |d| <= |h| && |d| <= limit && d == h[|h| - |d|..]
    && forall i :: 0 <= i < |h| - |d| ==> h[i] < floor
  }

  ghost predicate Sorted(h: seq<nat>) {
    forall i, j :: 0 <= i < j < |h| ==> h[i] <= h[j]
  }

  /** Any failure on a clock that is old enough and the one `limit` places later are more than a window apart. */
  ghost predicate Spread(cfg: Config, h: seq<nat>, limit: nat) {
    forall i, j :: 0 <= i < |h| && j == i + limit && j < |h| ==> h[i] < OldEnough(cfg) || h[j] - h[i] > cfg.window
  }

  /** What happened before this may be forgotten: it has left the window, or the clock was too young. */
  function Floor(cfg: Config, now: nat): int {
    if now - cfg.window >= OldEnough(cfg) then now - cfg.window else OldEnough(cfg)
  }

  ghost predicate KeyOk(cfg: Config, t: Table, h: seq<nat>, key: string, limit: nat, now: nat) {
    && |t| <= MAX_RATE_LIMIT_KEYS && Tracks(Deque(t, key), h, limit, Floor(cfg, now))
    && Sorted(h) && (forall i :: 0 <= i < |h| ==> h[i] <= now) && Spread(cfg, h, limit)
  }

  /** Expiry forgets only what may be forgotten. */
  lemma ExpiryTracks(cfg: Config, d: seq<nat>, h: seq<nat>, limit: nat, floor: int, now: nat)
    requires cfg.Valid() && Tracks(d, h, limit, floor) && floor <= Floor(cfg, now)
    ensures Tracks(Fresh(d, Cutoff(cfg, now)), h, limit, Floor(cfg, now))
  {
    var cutoff := Cutoff(cfg, now);
    FreshIsSuffix(d, cutoff);
    var r := Fresh(d, cutoff);
    forall i | 0 <= i < |h| - |r| ensures h[i] < Floor(cfg, now) {
      if i >= |h| - |d| { assert h[i] == d[i - (|h| - |d|)]; }
    }
  }

  lemma RetainedSize(t: Table, cutoff: nat, key: string)
    ensures |Retained(t, cutoff)| <= |t| && Retained(t, cutoff).Keys <= t.Keys
    ensures key in t && key !in Retained(t, cutoff) ==> |Retained(t, cutoff)| < |t|
  {
    var kept, all := Retained(t, cutoff).Keys, t.Keys;
    SubsetIsSmaller(kept, all);
    if key in t && key !in kept {
      SubsetIsSmaller(kept, all - {key});
      assert |all - {key}| == |all| - 1;
    }
  }

  lemma RetainedShrinks(t: Table, key: string, cutoff: nat)
    ensures |Fresh(Deque(Retained(t, cutoff), key), cutoff)| <= |Deque(Retained(t, cutoff), key)| <= |Deque(t, key)|
  {
  }

  lemma RetentionTracks(cfg: Config, t: Table, h: seq<nat>, key: string, limit: nat, floor: int, now: nat)
    requires cfg.Valid() && Tracks(Deque(t, key), h, limit, floor) && floor <= Floor(cfg, now) && Sorted(h)
    ensures Tracks(Deque(Retained(t, Cutoff(cfg, now)), key), h, limit, Floor(cfg, now))
  {
    var d := Deque(t, key);
    if key !in Retained(t, Cutoff(cfg, now)) && d != [] {
      assert d[|d| - 1] < Cutoff(cfg, now) && h[|h| - 1] == d[|d| - 1];
    }
  }

  lemma SubsetIsSmaller<T>(a: set<T>, b: set<T>)
    requires a <= b
    ensures |a| <= |b|
  {
    assert b == a + (b - a);
  }

  // ===== Checking keeps the books =====

  lemma ExpiredDeque(cfg: Config, t: Table, username: string, source: Option<string>, cutoff: nat, key: string)
    ensures var t' := ExpireKeys(t, Keys(cfg, username, source), cutoff);
            && t'.Keys == t.Keys
            && Deque(t', key) == if key == AccountKey(username) || (source.Some? && key == SourceKey(source.value))
                                 then Fresh(Deque(t, key), cutoff) else Deque(t, key)
  {
    var keys := Keys(cfg, username, source);
    NextExpire(t, keys, 0, cutoff);
    assert keys[..0] == [] && ExpireKeys(t, [], cutoff) == t;
    var t1 := ExpireOne(t, AccountKey(username), cutoff);
    assert ExpireKeys(t, keys[..1], cutoff) == t1;
    hide AccountKey, SourceKey, Fresh, ExpireKeys;
    if source.Some? {
      KeysDiffer(username, source.value);
      NextExpire(t, keys, 1, cutoff);
      assert keys[..2] == keys;
    } else {
      assert keys[..1] == keys;
    }
  }

  function ExpireOne(t: Table, key: string, cutoff: nat): Table {
    if key in t then t[key := Fresh(t[key], cutoff)] else t
  }

  lemma NextExpire(t: Table, keys: seq<(string, nat)>, i: nat, cutoff: nat)
    requires i < |keys|
    ensures ExpireKeys(t, keys[..i + 1], cutoff) == ExpireOne(ExpireKeys(t, keys[..i], cutoff), keys[i].0, cutoff)
  {
    assert keys[..i + 1][..i] == keys[..i] && keys[..i + 1][i] == keys[i];
  }

  lemma CheckKeepsKey(cfg: Config, t: Table, l: Login, h: seq<nat>, key: string, limit: nat, now: nat)
    requires cfg.Valid() && KeyOk(cfg, t, h, key, limit, now) && now <= l.checkedAt
    ensures KeyOk(cfg, Checked(cfg, t, Keys(cfg, l.username, l.source), l.checkedAt).0, h, key, limit, l.checkedAt)
  {
    hide Retained, ExpireKeys, LongestWait, Saturated, Fresh, Keys, Deque, Tracks, Sorted, Spread;
    var cutoff := Cutoff(cfg, l.checkedAt);
    var t1 := Retained(t, cutoff);
    RetentionTracks(cfg, t, h, key, limit, Floor(cfg, now), l.checkedAt);
    RetainedSize(t, cutoff, key);
    ExpiredDeque(cfg, t1, l.username, l.source, cutoff, key);
    ExpiryTracks(cfg, Deque(t1, key), h, limit, Floor(cfg, l.checkedAt), l.checkedAt);
    assert |ExpireKeys(t1, Keys(cfg, l.username, l.source), cutoff).Keys| == |t1.Keys|;
  }

  /** An admitted attempt's keys have budget left, and each is in the table or the table has room. */
  lemma Admitted(cfg: Config, t: Table, l: Login)
    requires cfg.Valid()
    requires Checked(cfg, t, Keys(cfg, l.username, l.source), l.checkedAt).1.None?
    ensures var t' := Checked(cfg, t, Keys(cfg, l.username, l.source), l.checkedAt).0;
            && |Deque(t', AccountKey(l.username))| < cfg.maxAccount
            && (AccountKey(l.username) in t' || |t'| < MAX_RATE_LIMIT_KEYS)
            && (l.source.Some? ==> |Deque(t', SourceKey(l.source.value))| < cfg.maxSource)
  {
    var keys := Keys(cfg, l.username, l.source);
    var cutoff := Cutoff(cfg, l.checkedAt);
    var t1 := Retained(t, cutoff);
    ExpiredDeque(cfg, t1, l.username, l.source, cutoff, keys[0].0);
    if l.source.Some? { ExpiredDeque(cfg, t1, l.username, l.source, cutoff, keys[1].0); }
    NoWait(cfg, t1, l);
    assert keys[0].0 !in t1 && |t1| >= MAX_RATE_LIMIT_KEYS ==> Saturated(t1, keys);
    hide Retained, Fresh, LongestWait, ExpireKeys;
    assert |ExpireKeys(t1, keys, cutoff).Keys| == |t1.Keys|;
  }

  lemma NoWait(cfg: Config, t: Table, l: Login)
    requires cfg.Valid() && LongestWait(cfg, t, Keys(cfg, l.username, l.source), l.checkedAt).None?
    ensures |Fresh(Deque(t, AccountKey(l.username)), Cutoff(cfg, l.checkedAt))| < cfg.maxAccount
    ensures l.source.Some? ==> |Fresh(Deque(t, SourceKey(l.source.value)), Cutoff(cfg, l.checkedAt))| < cfg.maxSource
  {
    var keys := Keys(cfg, l.username, l.source);
    var account := [keys[0]];
    assert account[..0] == [] && keys[..1] == account;
    assert LongestWait(cfg, t, account, l.checkedAt) == KeyWait(cfg, t, keys[0].0, keys[0].1, l.checkedAt);
    if l.source.None? { assert keys == account; }
  }

  // ===== Recording keeps the books =====

  /** Charging one more failure to a key that has budget left. */
  lemma ChargeKeepsBooks(cfg: Config, d: seq<nat>, h: seq<nat>, limit: nat, now: nat)
    requires cfg.Valid() && Tracks(d, h, limit, Floor(cfg, now)) && |d| < limit
    requires Sorted(h) && (forall i :: 0 <= i < |h| ==> h[i] <= now) && Spread(cfg, h, limit)
    ensures Tracks(d + [now], h + [now], limit, Floor(cfg, now))
    ensures Sorted(h + [now]) && Spread(cfg, h + [now], limit)
  {
    var h' := h + [now];
    forall i, j | 0 <= i < |h'| && j == i + limit && j < |h'|
      ensures h'[i] < OldEnough(cfg) || h'[j] - h'[i] > cfg.window
    {
      if j == |h| { assert i < |h| - |d|; }
    }
  }

  /** What is left in the window of the key that `RecordOne` is about to charge. */
  lemma RecordOneDeque(t: Table, key: string, limit: nat, now: nat, cutoff: nat, other: string)
    requires limit > 0
    ensures var t' := RecordOne(t, key, limit, now, cutoff);
            && |t'| <= (if key in t then |t| else |t| + 1) &&
              (|t| <= MAX_RATE_LIMIT_KEYS ==> |t'| <= MAX_RATE_LIMIT_KEYS)
            && (other != key ==> Deque(t', other) == Deque(t, other) && (other in t' <==> other in t))
            && ((key in t || |t| < MAX_RATE_LIMIT_KEYS) && |Fresh(Deque(t, key), cutoff)| < limit ==>
                  Deque(t', key) == Fresh(Deque(t, key), cutoff) + [now])
  {
    if key in t {
      assert t[key := t[key]].Keys == t.Keys;
      assert RecordOne(t, key, limit, now, cutoff).Keys == t.Keys;
    }
  }

  lemma RecordedUnfolds(cfg: Config, t: Table, l: Login)
    ensures var cutoff := Cutoff(cfg, l.recordedAt);
            var t3 := RecordOne(Retained(t, cutoff), AccountKey(l.username), cfg.maxAccount, l.recordedAt, cutoff);
            Recorded(cfg, t, Keys(cfg, l.username, l.source), l.recordedAt) ==
              match l.source
              case None => t3
              case Some(s) => RecordOne(t3, SourceKey(s), cfg.maxSource, l.recordedAt, cutoff)
  {
    var keys := Keys(cfg, l.username, l.source);
    var cutoff := Cutoff(cfg, l.recordedAt);
    var t2 := Retained(t, cutoff);
    NextRecord(t2, keys, 0, l.recordedAt, cutoff);
    assert keys[..0] == [] && RecordKeys(t2, [], l.recordedAt, cutoff) == t2;
    hide Retained, RecordOne, AccountKey, SourceKey, RecordKeys;
    if l.source.Some? {
      NextRecord(t2, keys, 1, l.recordedAt, cutoff);
      assert keys[..2] == keys;
    } else {
      assert keys[..1] == keys;
    }
  }

  /** The table has a place for the source after the account has taken one. */
  predicate SourceHasRoom(cfg: Config, t: Table, l: Login) {
    l.source.Some? ==>
      var t2 := Retained(t, Cutoff(cfg, l.recordedAt));
      SourceKey(l.source.value) in t2 || |t2| + (if AccountKey(l.username) in t2 then 1 else 2) <= MAX_RATE_LIMIT_KEYS
  }

  /** A key that is not charged loses nothing that still counts. */
  lemma RecordKeepsOther(cfg: Config, t: Table, l: Login, h: seq<nat>, key: string, limit: nat, now: nat)
    requires cfg.Valid() && KeyOk(cfg, t, h, key, limit, now) && now <= l.recordedAt
    requires !Charges(cfg, l, key)
    ensures KeyOk(cfg, Recorded(cfg, t, Keys(cfg, l.username, l.source), l.recordedAt), h, key, limit, l.recordedAt)
  {
    var cutoff := Cutoff(cfg, l.recordedAt);
    hide Retained, Fresh, Recorded, RecordKeys, RecordOne, Keys, AccountKey, SourceKey, Tracks, Sorted, Spread;
    var t2 := Retained(t, cutoff);
    RetentionTracks(cfg, t, h, key, limit, Floor(cfg, now), l.recordedAt);
    RetainedSize(t, cutoff, key);
    RecordedUnfolds(cfg, t, l);
    RecordOneDeque(t2, AccountKey(l.username), cfg.maxAccount, l.recordedAt, cutoff, key);
    if l.source.Some? {
      var t3 := RecordOne(t2, AccountKey(l.username), cfg.maxAccount, l.recordedAt, cutoff);
      RecordOneDeque(t3, SourceKey(l.source.value), cfg.maxSource, l.recordedAt, cutoff, key);
    }
  }

  lemma RecordChargesAccount(cfg: Config, t: Table, l: Login, h: seq<nat>, now: nat)
    requires cfg.Valid() && KeyOk(cfg, t, h, AccountKey(l.username), cfg.maxAccount, now)
    requires now <= l.recordedAt
    requires |Deque(t, AccountKey(l.username))| < cfg.maxAccount
    requires AccountKey(l.username) in t || |t| < MAX_RATE_LIMIT_KEYS
    ensures KeyOk(cfg, Recorded(cfg, t, Keys(cfg, l.username, l.source), l.recordedAt), h + [l.recordedAt],
                  AccountKey(l.username), cfg.maxAccount, l.recordedAt)
  {
    hide Retained, Recorded, RecordKeys, RecordOne, Keys, AccountKey, SourceKey, Tracks, Sorted, Spread, Fresh, Deque;
    var cutoff := Cutoff(cfg, l.recordedAt);
    var key, limit := AccountKey(l.username), cfg.maxAccount;
    var t2 := Retained(t, cutoff);
    RetentionTracks(cfg, t, h, key, limit, Floor(cfg, now), l.recordedAt);
    RetainedSize(t, cutoff, key);
    RetainedShrinks(t, key, cutoff);
    ExpiryTracks(cfg, Deque(t2, key), h, limit, Floor(cfg, l.recordedAt), l.recordedAt);
    ChargeKeepsBooks(cfg, Fresh(Deque(t2, key), cutoff), h, limit, l.recordedAt);
    RecordedUnfolds(cfg, t, l);
    RecordOneDeque(t2, key, limit, l.recordedAt, cutoff, key);
    if l.source.Some? {
      KeysDiffer(l.username, l.source.value);
      RecordOneDeque(RecordOne(t2, key, limit, l.recordedAt, cutoff), SourceKey(l.source.value), cfg.maxSource,
                     l.recordedAt, cutoff, key);
    }
  }

  lemma RecordChargesSource(cfg: Config, t: Table, l: Login, h: seq<nat>, now: nat)
    requires cfg.Valid() && l.source.Some? && KeyOk(cfg, t, h, SourceKey(l.source.value), cfg.maxSource, now)
    requires now <= l.recordedAt
    requires |Deque(t, SourceKey(l.source.value))| < cfg.maxSource
    requires SourceHasRoom(cfg, t, l)
    ensures KeyOk(cfg, Recorded(cfg, t, Keys(cfg, l.username, l.source), l.recordedAt), h + [l.recordedAt],
                  SourceKey(l.source.value), cfg.maxSource, l.recordedAt)
  {
    hide Retained, Recorded, RecordKeys, RecordOne, Keys, AccountKey, SourceKey, Tracks, Sorted, Spread, Fresh, Deque;
    var cutoff := Cutoff(cfg, l.recordedAt);
    var key, limit := SourceKey(l.source.value), cfg.maxSource;
    var t2 := Retained(t, cutoff);
    RetentionTracks(cfg, t, h, key, limit, Floor(cfg, now), l.recordedAt);
    RetainedSize(t, cutoff, key);
    RetainedShrinks(t, key, cutoff);
    KeysDiffer(l.username, l.source.value);
    RecordedUnfolds(cfg, t, l);
    var t3 := RecordOne(t2, AccountKey(l.username), cfg.maxAccount, l.recordedAt, cutoff);
    RecordOneDeque(t2, AccountKey(l.username), cfg.maxAccount, l.recordedAt, cutoff, key);
    ExpiryTracks(cfg, Deque(t3, key), h, limit, Floor(cfg, l.recordedAt), l.recordedAt);
    ChargeKeepsBooks(cfg, Fresh(Deque(t3, key), cutoff), h, limit, l.recordedAt);
    RecordOneDeque(t3, key, limit, l.recordedAt, cutoff, key);
  }

  /** The source has a key in the table afterwards exactly if it had room. */
  lemma SourceKeptIffRoom(cfg: Config, t: Table, l: Login)
    requires cfg.Valid() && l.source.Some? && |t| <= MAX_RATE_LIMIT_KEYS
    ensures SourceKey(l.source.value) in Recorded(cfg, t, Keys(cfg, l.username, l.source), l.recordedAt)
            <==> SourceHasRoom(cfg, t, l)
  {
    var cutoff := Cutoff(cfg, l.recordedAt);
    var t2 := Retained(t, cutoff);
    var account := AccountKey(l.username);
    RetainedSize(t, cutoff, account);
    RecordedUnfolds(cfg, t, l);
    KeysDiffer(l.username, l.source.value);
    var t3 := RecordOne(t2, account, cfg.maxAccount, l.recordedAt, cutoff);
    if account in t2 {
      assert t3.Keys == t2.Keys;
    } else {
      assert t2[account := [l.recordedAt]].Keys == t2.Keys + {account};
    }
    assert |t3.Keys| == |t3| && |t2.Keys| == |t2|;
  }

  /** With room, the failure of a source that has budget left is the last entry of its deque. */
  lemma SourceIsRecorded(cfg: Config, t: Table, l: Login)
    requires cfg.Valid() && l.source.Some? && |t| <= MAX_RATE_LIMIT_KEYS && SourceHasRoom(cfg, t, l)
    requires |Deque(t, SourceKey(l.source.value))| < cfg.maxSource
    ensures var d := Deque(Recorded(cfg, t, Keys(cfg, l.username, l.source), l.recordedAt), SourceKey(l.source.value));
            EndsWith(d, l.recordedAt)
  {
    hide Retained, Recorded, RecordKeys, RecordOne, Keys, AccountKey, SourceKey, Fresh, Deque;
    var cutoff := Cutoff(cfg, l.recordedAt);
    var key := SourceKey(l.source.value);
    var t2 := Retained(t, cutoff);
    RetainedSize(t, cutoff, key);
    RetainedShrinks(t, key, cutoff);
    KeysDiffer(l.username, l.source.value);
    RecordedUnfolds(cfg, t, l);
    var t3 := RecordOne(t2, AccountKey(l.username), cfg.maxAccount, l.recordedAt, cutoff);
    RecordOneDeque(t2, AccountKey(l.username), cfg.maxAccount, l.recordedAt, cutoff, key);
    RecordOneDeque(t3, key, cfg.maxSource, l.recordedAt, cutoff, key);
  }

  predicate EndsWith(d: seq<nat>, time: nat) { d != [] && d[|d| - 1] == time }

  /** One slot is left, and neither the account nor the source holds one. */
  predicate OneSlotForTwo(t: Table, l: Login) {
    && |t| == MAX_RATE_LIMIT_KEYS - 1 && AccountKey(l.username) !in t
    && l.source.Some? && SourceKey(l.source.value) !in t
  }

  /** An admitted attempt lacks room for its source only when the account takes the last slot. */
  lemma NoRoomIffOneSlot(cfg: Config, t: Table, l: Login)
    requires cfg.Valid() && l.source.Some? && |t| <= MAX_RATE_LIMIT_KEYS
    requires |t| == MAX_RATE_LIMIT_KEYS ==> AccountKey(l.username) in t && SourceKey(l.source.value) in t
    ensures !SourceHasRoom(cfg, t, l) <==> OneSlotForTwo(Retained(t, Cutoff(cfg, l.recordedAt)), l)
  {
    RetainedSize(t, Cutoff(cfg, l.recordedAt), SourceKey(l.source.value));
    RetainedSize(t, Cutoff(cfg, l.recordedAt), AccountKey(l.username));
  }

  lemma AdmittedIsHeld(cfg: Config, t: Table, l: Login)
    requires cfg.Valid() && l.source.Some?
    requires Checked(cfg, t, Keys(cfg, l.username, l.source), l.checkedAt).1.None?
    ensures var t' := Checked(cfg, t, Keys(cfg, l.username, l.source), l.checkedAt).0;
            && |t'| <= |t|
            && (|t'| >= MAX_RATE_LIMIT_KEYS ==> AccountKey(l.username) in t' && SourceKey(l.source.value) in t')
  {
    var keys, cutoff := Keys(cfg, l.username, l.source), Cutoff(cfg, l.checkedAt);
    var t1 := Retained(t, cutoff);
    RetainedSize(t, cutoff, "");
    ExpiredDeque(cfg, t1, l.username, l.source, cutoff, "");
    assert keys[0].0 == AccountKey(l.username) && keys[1].0 == SourceKey(l.source.value);
    hide Retained, ExpireKeys, LongestWait, Keys, AccountKey, SourceKey;
    assert |ExpireKeys(t1, keys, cutoff).Keys| == |t1.Keys|;
  }

  /**
   * The failure of an admitted attempt is recorded for its source exactly unless the table, when it is charged, has one
   * slot left and holds neither key; then the source is not in the table at all.
   */
  lemma SourceCountedExactly(cfg: Config, t: Table, l: Login)
    requires cfg.Valid() && l.source.Some? && |t| <= MAX_RATE_LIMIT_KEYS && LoginStep(cfg, t, l).1 == Rejected
    ensures var t1 := Checked(cfg, t, Keys(cfg, l.username, l.source), l.checkedAt).0;
            var (t', key) := (LoginStep(cfg, t, l).0, SourceKey(l.source.value));
            var uncounted := OneSlotForTwo(Retained(t1, Cutoff(cfg, l.recordedAt)), l);
            && (EndsWith(Deque(t', key), l.recordedAt) <==> !uncounted)
            && (uncounted ==> key !in t')
            && (SourceHasRoom(cfg, t1, l) <==> !uncounted)
  {
    var t1 := Checked(cfg, t, Keys(cfg, l.username, l.source), l.checkedAt).0;
    hide Checked, Recorded, Retained, SourceHasRoom, OneSlotForTwo, Keys, AccountKey, SourceKey;
    Admitted(cfg, t, l);
    AdmittedIsHeld(cfg, t, l);
    NoRoomIffOneSlot(cfg, t1, l);
    SourceKeptIffRoom(cfg, t1, l);
    if SourceHasRoom(cfg, t1, l) { SourceIsRecorded(cfg, t1, l); }
  }

  // ----- How a source goes uncounted -----

  /** An attempt whose keys are not in a table with a free slot is admitted, and the table is as it was. */
  lemma NewcomerIsAdmitted(cfg: Config, t: Table, l: Login)
    requires cfg.Valid() && |t| < MAX_RATE_LIMIT_KEYS && AccountKey(l.username) !in t
    requires l.source.Some? ==> SourceKey(l.source.value) !in t
    ensures Checked(cfg, t, Keys(cfg, l.username, l.source), l.checkedAt) == (t, None)
  {
    var keys := Keys(cfg, l.username, l.source);
    NextExpire(t, keys, 0, Cutoff(cfg, l.checkedAt));
    NextKeyUnfolds(cfg, t, keys, 0, l.checkedAt);
    assert keys[..0] == [];
    NoKeysLeft(cfg, t, Cutoff(cfg, l.checkedAt), l.checkedAt);
    hide AccountKey, SourceKey, ExpireKeys, LongestWait;
    if l.source.Some? {
      NextExpire(t, keys, 1, Cutoff(cfg, l.checkedAt));
      NextKeyUnfolds(cfg, t, keys, 1, l.checkedAt);
      assert keys[..2] == keys;
    } else {
      assert keys[..1] == keys;
    }
  }

  /** When one slot is left the account takes it, and the failure of the source is evaluated and not recorded. */
  lemma LastSlotGoesToAccount(cfg: Config, t: Table, l: Login)
    requires cfg.Valid() && OneSlotForTwo(t, l) && !l.lockedOut && l.rejected
    ensures LoginStep(cfg, t, l).1 == Rejected
    ensures LoginStep(cfg, t, l).0 == t[AccountKey(l.username) := [l.recordedAt]]
    ensures SourceKey(l.source.value) !in LoginStep(cfg, t, l).0
  {
    NewcomerIsAdmitted(cfg, t, l);
    RecordedUnfolds(cfg, t, l);
    KeysDiffer(l.username, l.source.value);
    hide AccountKey, SourceKey, Keys, Checked, RecordKeys;
    var t3 := t[AccountKey(l.username) := [l.recordedAt]];
    assert t3.Keys == t.Keys + {AccountKey(l.username)};
    assert |t3.Keys| == |t3| && |t.Keys| == |t|;
  }

  function TryAt(username: string, time: nat): Login { Login(username, None, time, time, false, true) }

  function Name(n: nat): string { seq(n, i => 'a') }

  lemma {:induction false} LowerOfName(n: nat)
    ensures Lower(Name(n)) == Name(n)
  {
    if n == 0 {
    } else {
      assert Name(n)[1..] == Name(n - 1);
      LowerOfName(n - 1);
      assert Name(n) == ['a'] + Name(n - 1);
    }
  }

  lemma NamesDiffer(m: nat, n: nat)
    requires m != n
    ensures AccountKey(Name(m)) != AccountKey(Name(n))
  {
    LowerOfName(m);
    LowerOfName(n);
    assert |AccountKey(Name(m))| == 8 + m && |AccountKey(Name(n))| == 8 + n;
  }

  /** One failure for each of `n` accounts. */
  function Crowd(at: nat, n: nat): (run: seq<Login>)
    ensures |run| == n && forall i :: 0 <= i < n ==> run[i].checkedAt == run[i].recordedAt == at
  {
    if n == 0 then [] else Crowd(at, n - 1) + [TryAt(Name(n - 1), at)]
  }

  /** The table holds only accounts of the crowd. */
  ghost predicate OfCrowd(t: Table, n: nat) {
    forall k :: k in t ==> exists i :: 0 <= i < n && k == AccountKey(Name(i))
  }

  lemma OutsideCrowd(t: Table, n: nat, m: nat, source: string)
    requires OfCrowd(t, n) && n <= m
    ensures AccountKey(Name(m)) !in t && SourceKey(source) !in t
  {
    forall i: nat | i < n
      ensures AccountKey(Name(i)) != AccountKey(Name(m)) && AccountKey(Name(i)) != SourceKey(source)
    {
      NamesDiffer(i, m);
      KeysDiffer(Name(i), source);
    }
  }

  /** A crowd of accounts takes a slot each. */
  lemma {:induction false} CrowdFills(cfg: Config, at: nat, n: nat)
    requires cfg.Valid() && n <= MAX_RATE_LIMIT_KEYS
    ensures |TableAfter(cfg, Crowd(at, n))| == n && OfCrowd(TableAfter(cfg, Crowd(at, n)), n)
  {
    if n == 0 {
    } else {
      CrowdFills(cfg, at, n - 1);
      hide AccountKey, Name, LoginStep, TableAfter;
      var t, l := TableAfter(cfg, Crowd(at, n - 1)), TryAt(Name(n - 1), at);
      OutsideCrowd(t, n - 1, n - 1, "");
      NewAccountTakesSlot(cfg, t, l);
      RunOneMore(cfg, Crowd(at, n - 1), l, "");
    }
  }

  lemma NewAccountTakesSlot(cfg: Config, t: Table, l: Login)
    requires cfg.Valid() && |t| < MAX_RATE_LIMIT_KEYS && AccountKey(l.username) !in t && l.source.None?
    requires !l.lockedOut && l.rejected
    ensures LoginStep(cfg, t, l) == (t[AccountKey(l.username) := [l.recordedAt]], Rejected)
    ensures |LoginStep(cfg, t, l).0| == |t| + 1
  {
    NewcomerIsAdmitted(cfg, t, l);
    RecordedUnfolds(cfg, t, l);
    hide AccountKey, Keys, Checked, RecordKeys;
    var t' := t[AccountKey(l.username) := [l.recordedAt]];
    assert t'.Keys == t.Keys + {AccountKey(l.username)};
    assert |t'.Keys| == |t'| && |t.Keys| == |t|;
  }

  lemma CrowdIsOrdered(at: nat, n: nat, l: Login)
    requires l.checkedAt == l.recordedAt == at
    ensures OrderedFrom(at, Crowd(at, n) + [l])
  {
    hide Crowd;
    var run := Crowd(at, n) + [l];
    assert forall i :: 0 <= i < |run| ==> run[i].checkedAt == run[i].recordedAt == at;
  }

  /** Every source has a run, from any time on, whose last login is its evaluated failure and leaves no trace of it. */
  lemma SourceGoesUncounted(cfg: Config, source: string, at: nat)
    requires cfg.Valid()
    ensures var crowd := Crowd(at, MAX_RATE_LIMIT_KEYS - 1);
            var l := Login(Name(MAX_RATE_LIMIT_KEYS), Some(source), at, at, false, true);
            && OrderedFrom(at, crowd + [l]) && IsFailureFrom(cfg, crowd, l, source)
            && SourceKey(source) !in TableAfter(cfg, crowd + [l])
  {
    var n := MAX_RATE_LIMIT_KEYS - 1;
    var crowd := Crowd(at, n);
    var l := Login(Name(MAX_RATE_LIMIT_KEYS), Some(source), at, at, false, true);
    var t := TableAfter(cfg, crowd);
    hide AccountKey, SourceKey, Name, LoginStep, Crowd, TableAfter, OfCrowd, OrderedFrom;
    CrowdIsOrdered(at, n, l);
    CrowdFills(cfg, at, n);
    OutsideCrowd(t, n, MAX_RATE_LIMIT_KEYS, source);
    LastSlotGoesToAccount(cfg, t, l);
    RunOneMore(cfg, crowd, l, "");
  }

  // ===== Every run keeps the budgets =====

  ghost function LastTime(run: seq<Login>): nat {
    if run == [] then 0 else run[|run| - 1].recordedAt
  }

  /** Every evaluated failure from `source` found room in the table. */
  ghost predicate RoomForSource(cfg: Config, run: seq<Login>, source: string) {
    forall i :: 0 <= i < |run| && IsFailureFrom(cfg, run[..i], run[i], source) ==> RoomAt(cfg, run[..i], run[i])
  }

  /** A login from `source` that is evaluated and rejected. */
  ghost predicate IsFailureFrom(cfg: Config, before: seq<Login>, l: Login, source: string) {
    l.source == Some(source) && LoginStep(cfg, TableAfter(cfg, before), l).1 == Rejected
  }

  ghost predicate RoomAt(cfg: Config, before: seq<Login>, l: Login) {
    SourceHasRoom(cfg, Checked(cfg, TableAfter(cfg, before), Keys(cfg, l.username, l.source), l.checkedAt).0, l)
  }

  lemma OrderedPrefix(run: seq<Login>)
    requires Ordered(run) && run != []
    ensures Ordered(run[..|run| - 1])
    ensures LastTime(run[..|run| - 1]) <= run[|run| - 1].checkedAt <= run[|run| - 1].recordedAt
  {
  }

  /** One login, whatever its outcome, keeps the books of an account. */
  lemma LoginKeepsAccount(cfg: Config, t: Table, l: Login, h: seq<nat>, username: string, now: nat)
    requires cfg.Valid() && KeyOk(cfg, t, h, AccountKey(username), cfg.maxAccount, now)
    requires now <= l.checkedAt <= l.recordedAt
    ensures var (t', outcome) := LoginStep(cfg, t, l);
            var h' := if outcome == Rejected && Charges(cfg, l, AccountKey(username)) then h + [l.recordedAt] else h;
            KeyOk(cfg, t', h', AccountKey(username), cfg.maxAccount, l.recordedAt)
  {
    hide Checked, Recorded, Keys, AccountKey, SourceKey, Deque, Tracks, Sorted, Spread;
    var key := AccountKey(username);
    var (t1, wait) := Checked(cfg, t, Keys(cfg, l.username, l.source), l.checkedAt);
    CheckKeepsKey(cfg, t, l, h, key, cfg.maxAccount, now);
    TimeKeepsKey(cfg, t1, h, key, cfg.maxAccount, l.checkedAt, l.recordedAt);
    if LoginStep(cfg, t, l).1 == Rejected {
      Admitted(cfg, t, l);
      if l.source.Some? { KeysDiffer(username, l.source.value); }
      if key == AccountKey(l.username) {
        RecordChargesAccount(cfg, t1, l, h, l.checkedAt);
      } else {
        RecordKeepsOther(cfg, t1, l, h, key, cfg.maxAccount, l.checkedAt);
      }
    }
  }

  lemma LoginKeepsSource(cfg: Config, t: Table, l: Login, h: seq<nat>, source: string, now: nat)
    requires cfg.Valid() && KeyOk(cfg, t, h, SourceKey(source), cfg.maxSource, now)
    requires now <= l.checkedAt <= l.recordedAt
    requires l.source == Some(source) && LoginStep(cfg, t, l).1 == Rejected ==>
               SourceHasRoom(cfg, Checked(cfg, t, Keys(cfg, l.username, l.source), l.checkedAt).0, l)
    ensures var (t', outcome) := LoginStep(cfg, t, l);
            var h' := if outcome == Rejected && Charges(cfg, l, SourceKey(source)) then h + [l.recordedAt] else h;
            KeyOk(cfg, t', h', SourceKey(source), cfg.maxSource, l.recordedAt)
  {
    var key := SourceKey(source);
    if l.source.Some? &&
       SourceKey(l.source.value) == key { assert l.source.value == SourceKey(l.source.value)[7..] == key[7..]; }
    hide Checked, Recorded, Keys, AccountKey, SourceKey, Deque, Tracks, Sorted, Spread, SourceHasRoom;
    var (t1, wait) := Checked(cfg, t, Keys(cfg, l.username, l.source), l.checkedAt);
    CheckKeepsKey(cfg, t, l, h, key, cfg.maxSource, now);
    TimeKeepsKey(cfg, t1, h, key, cfg.maxSource, l.checkedAt, l.recordedAt);
    if LoginStep(cfg, t, l).1 == Rejected {
      Admitted(cfg, t, l);
      KeysDiffer(l.username, source);
      if l.source.Some? && key == SourceKey(l.source.value) {
        RecordChargesSource(cfg, t1, l, h, l.checkedAt);
      } else {
        RecordKeepsOther(cfg, t1, l, h, key, cfg.maxSource, l.checkedAt);
      }
    }
  }

  /** The passing of time alone forgets nothing. */
  lemma TimeKeepsKey(cfg: Config, t: Table, h: seq<nat>, key: string, limit: nat, now: nat, later: nat)
    requires KeyOk(cfg, t, h, key, limit, now) && now <= later
    ensures KeyOk(cfg, t, h, key, limit, later)
  {
  }

  /** The books of a key after a run. */
  ghost predicate BooksOk(cfg: Config, run: seq<Login>, key: string, limit: nat) {
    KeyOk(cfg, TableAfter(cfg, run), FailuresOf(cfg, run, key), key, limit, LastTime(run))
  }

  lemma NoBooksYet(cfg: Config, key: string, limit: nat)
    ensures BooksOk(cfg, [], key, limit)
  {
  }

  lemma AccountStep(cfg: Config, before: seq<Login>, l: Login, username: string)
    requires cfg.Valid() && BooksOk(cfg, before, AccountKey(username), cfg.maxAccount)
    requires LastTime(before) <= l.checkedAt <= l.recordedAt
    ensures BooksOk(cfg, before + [l], AccountKey(username), cfg.maxAccount)
  {
    hide KeyOk, LoginStep, AccountKey, TableAfter, FailuresOf, Charges;
    var h := FailuresOf(cfg, before, AccountKey(username));
    LoginKeepsAccount(cfg, TableAfter(cfg, before), l, h, username, LastTime(before));
    RunOneMore(cfg, before, l, AccountKey(username));
    assert h + [] == h;
  }

  lemma SourceStep(cfg: Config, before: seq<Login>, l: Login, source: string)
    requires cfg.Valid() && BooksOk(cfg, before, SourceKey(source), cfg.maxSource)
    requires LastTime(before) <= l.checkedAt <= l.recordedAt
    requires IsFailureFrom(cfg, before, l, source) ==> RoomAt(cfg, before, l)
    ensures BooksOk(cfg, before + [l], SourceKey(source), cfg.maxSource)
  {
    hide KeyOk, LoginStep, SourceKey, TableAfter, FailuresOf, Charges, SourceHasRoom, Checked;
    var h := FailuresOf(cfg, before, SourceKey(source));
    LoginKeepsSource(cfg, TableAfter(cfg, before), l, h, source, LastTime(before));
    RunOneMore(cfg, before, l, SourceKey(source));
    assert h + [] == h;
  }

  lemma {:induction false} RunKeepsAccount(cfg: Config, run: seq<Login>, username: string)
    requires cfg.Valid() && Ordered(run)
    ensures BooksOk(cfg, run, AccountKey(username), cfg.maxAccount)
  {
    hide BooksOk, Ordered, AccountKey;
    if run == [] {
      NoBooksYet(cfg, AccountKey(username), cfg.maxAccount);
    } else {
      var before, l := run[..|run| - 1], run[|run| - 1];
      OrderedPrefix(run);
      RunKeepsAccount(cfg, before, username);
      AccountStep(cfg, before, l, username);
      assert run == before + [l];
    }
  }

  lemma RoomBefore(cfg: Config, run: seq<Login>, source: string)
    requires run != [] && RoomForSource(cfg, run, source)
    ensures RoomForSource(cfg, run[..|run| - 1], source)
    ensures var (before, l) := (run[..|run| - 1], run[|run| - 1]);
            IsFailureFrom(cfg, before, l, source) ==> RoomAt(cfg, before, l)
  {
    hide IsFailureFrom, RoomAt;
    var before := run[..|run| - 1];
    forall i | 0 <= i < |before| && IsFailureFrom(cfg, before[..i], before[i], source)
      ensures RoomAt(cfg, before[..i], before[i])
    {
      assert before[..i] == run[..i] && IsFailureFrom(cfg, run[..i], run[i], source);
    }
  }

  lemma {:induction false} RunKeepsSource(cfg: Config, run: seq<Login>, source: string)
    requires cfg.Valid() && Ordered(run) && RoomForSource(cfg, run, source)
    ensures BooksOk(cfg, run, SourceKey(source), cfg.maxSource)
  {
    hide BooksOk, Ordered, SourceKey, RoomForSource, IsFailureFrom, RoomAt;
    if run == [] {
      NoBooksYet(cfg, SourceKey(source), cfg.maxSource);
    } else {
      var before, l := run[..|run| - 1], run[|run| - 1];
      OrderedPrefix(run);
      RoomBefore(cfg, run, source);
      RunKeepsSource(cfg, before, source);
      SourceStep(cfg, before, l, source);
      assert run == before + [l];
    }
  }

  /** The failures that fall into the closed interval [lo, hi]. */
  ghost function Within(h: seq<nat>, lo: nat, hi: nat): set<nat> {
    set i: nat | 0 <= i < |h| && lo <= h[i] <= hi
  }

  lemma SpreadBoundsWindows(cfg: Config, h: seq<nat>, limit: nat, lo: nat)
    requires Sorted(h) && Spread(cfg, h, limit) && OldEnough(cfg) <= lo
    ensures |Within(h, lo, lo + cfg.window)| <= limit
  {
    var inside := Within(h, lo, lo + cfg.window);
    if inside != {} {
      var first := LeastElement(inside);
      if first + limit < |h| { assert h[first + limit] - h[first] > cfg.window; }
      assert forall i :: i in inside ==> first <= i < first + limit;
      BoundedSet(inside, first, limit);
    }
  }

  lemma {:induction false} LeastElement(s: set<nat>) returns (m: nat)
    requires s != {}
    ensures m in s && forall i :: i in s ==> m <= i
  {
    var x :| x in s;
    var rest := s - {x};
    assert forall i :: i in s ==> i == x || i in rest;
    if rest == {} {
      m := x;
    } else {
      var y := LeastElement(rest);
      m := if x <= y then x else y;
    }
  }

  lemma {:induction false} BoundedSet(s: set<nat>, first: nat, n: nat)
    requires forall i :: i in s ==> first <= i < first + n
    ensures |s| <= n
    decreases n
  {
    if n == 0 {
    } else {
      BoundedSet(s - {first + n - 1}, first, n - 1);
    }
  }

  /**
   * In every run, no closed interval as long as the window holds more evaluated failures of an account than its budget,
   * once the clock is old enough; what was done while it was young does not matter.
   */
  lemma AccountBudget(cfg: Config, run: seq<Login>, username: string, lo: nat)
    requires cfg.Valid() && Ordered(run) && OldEnough(cfg) <= lo
    ensures |Within(AccountFailures(cfg, run, username), lo, lo + cfg.window)| <= cfg.maxAccount
  {
    AccountFailuresAre(cfg, run, username);
    hide AccountFailures;
    RunKeepsAccount(cfg, run, username);
    SpreadBoundsWindows(cfg, FailuresOf(cfg, run, AccountKey(username)), cfg.maxAccount, lo);
  }

  /** The same for a source, as long as its failures found room in the key table. */
  lemma SourceBudget(cfg: Config, run: seq<Login>, source: string, lo: nat)
    requires cfg.Valid() && Ordered(run) && RoomForSource(cfg, run, source) && OldEnough(cfg) <= lo
    ensures |Within(SourceFailures(cfg, run, source), lo, lo + cfg.window)| <= cfg.maxSource
  {
    SourceFailuresAre(cfg, run, source);
    hide SourceFailures;
    RunKeepsSource(cfg, run, source);
    SpreadBoundsWindows(cfg, FailuresOf(cfg, run, SourceKey(source)), cfg.maxSource, lo);
  }

  /** A run that keeps two slots of the table free gives every source room. */
  lemma TwoFreeSlotsSuffice(cfg: Config, run: seq<Login>, source: string)
    requires forall i :: 0 <= i < |run| ==> |TableAfter(cfg, run[..i])| + 2 <= MAX_RATE_LIMIT_KEYS
    ensures RoomForSource(cfg, run, source)
  {
    forall i | 0 <= i < |run| && IsFailureFrom(cfg, run[..i], run[i], source) ensures RoomAt(cfg, run[..i], run[i]) {
      var t, l := TableAfter(cfg, run[..i]), run[i];
      ExpiredDeque(cfg, t, l.username, l.source, Cutoff(cfg, l.checkedAt), "");
      var t1 := ExpireKeys(t, Keys(cfg, l.username, l.source), Cutoff(cfg, l.checkedAt));
      assert |t1.Keys| == |t.Keys|;
    }
  }

  // ===== The wait is tight =====

  function LimitOf(cfg: Config, key: string): nat { if "account:" <= key then cfg.maxAccount else cfg.maxSource }

  lemma LimitsOfKeys(cfg: Config, username: string, source: string)
    ensures LimitOf(cfg, AccountKey(username)) == cfg.maxAccount && LimitOf(cfg, SourceKey(source)) == cfg.maxSource
  {
    assert SourceKey(source)[0] == 's';
  }

  /** A deque is sorted, not from the future and within its key's limit. */
  ghost predicate DequeOk(cfg: Config, d: seq<nat>, key: string, now: nat) {
    Sorted(d) && (forall i :: 0 <= i < |d| ==> d[i] <= now) && |d| <= LimitOf(cfg, key)
  }

  /** Every deque is in order and the table does not exceed its cap. */
  ghost predicate TableOk(cfg: Config, t: Table, now: nat) {
    |t| <= MAX_RATE_LIMIT_KEYS && forall k :: k in t ==> DequeOk(cfg, t[k], k, now)
  }

  lemma FreshStaysOk(cfg: Config, d: seq<nat>, key: string, now: nat, cutoff: nat)
    requires DequeOk(cfg, d, key, now)
    ensures DequeOk(cfg, Fresh(d, cutoff), key, now)
  {
    FreshIsSuffix(d, cutoff);
  }

  lemma CheckKeepsTable(cfg: Config, t: Table, l: Login, now: nat)
    requires TableOk(cfg, t, now) && now <= l.checkedAt
    ensures TableOk(cfg, Checked(cfg, t, Keys(cfg, l.username, l.source), l.checkedAt).0, l.checkedAt)
  {
    var cutoff := Cutoff(cfg, l.checkedAt);
    var t1 := Retained(t, cutoff);
    var keys := Keys(cfg, l.username, l.source);
    RetainedSize(t, cutoff, "");
    var t' := ExpireKeys(t1, keys, cutoff);
    ExpiredDeque(cfg, t1, l.username, l.source, cutoff, "");
    assert |t'.Keys| == |t1.Keys|;
    forall k | k in t' ensures DequeOk(cfg, t'[k], k, l.checkedAt) {
      ExpiredDeque(cfg, t1, l.username, l.source, cutoff, k);
      assert DequeOk(cfg, t[k], k, now);
      FreshStaysOk(cfg, t[k], k, now, cutoff);
    }
  }

  lemma PushStaysOk(cfg: Config, d: seq<nat>, key: string, now: nat)
    requires DequeOk(cfg, d, key, now) && |d| < LimitOf(cfg, key)
    ensures DequeOk(cfg, d + [now], key, now)
  {
  }

  lemma RecordOneKeepsTable(cfg: Config, t: Table, key: string, now: nat, cutoff: nat)
    requires TableOk(cfg, t, now) && LimitOf(cfg, key) > 0
    ensures TableOk(cfg, RecordOne(t, key, LimitOf(cfg, key), now, cutoff), now)
  {
    var limit := LimitOf(cfg, key);
    RecordOneDeque(t, key, limit, now, cutoff, "");
    if key in t {
      FreshStaysOk(cfg, t[key], key, now, cutoff);
      var e := Fresh(t[key], cutoff);
      if |e| < limit { PushStaysOk(cfg, e, key, now); }
    } else {
      assert DequeOk(cfg, [], key, now);
      PushStaysOk(cfg, [], key, now);
      assert [] + [now] == [now];
    }
    hide DequeOk, LimitOf, Fresh;
  }

  lemma RecordKeepsTable(cfg: Config, t: Table, l: Login, now: nat)
    requires cfg.Valid() && TableOk(cfg, t, now) && now <= l.recordedAt
    ensures TableOk(cfg, Recorded(cfg, t, Keys(cfg, l.username, l.source), l.recordedAt), l.recordedAt)
  {
    var cutoff := Cutoff(cfg, l.recordedAt);
    RetainedSize(t, cutoff, "");
    RecordedUnfolds(cfg, t, l);
    LimitsOfKeys(cfg, l.username, if l.source.Some? then l.source.value else "");
    var t2 := Retained(t, cutoff);
    assert TableOk(cfg, t2, l.recordedAt);
    hide TableOk, RecordOne, Recorded, Keys, AccountKey, SourceKey, Retained, LimitOf;
    RecordOneKeepsTable(cfg, t2, AccountKey(l.username), l.recordedAt, cutoff);
    if l.source.Some? {
      RecordOneKeepsTable(cfg, RecordOne(t2, AccountKey(l.username), cfg.maxAccount, l.recordedAt, cutoff),
                          SourceKey(l.source.value), l.recordedAt, cutoff);
    }
  }

  /** Every reachable table is in order. */
  lemma {:induction false} RunKeepsTable(cfg: Config, run: seq<Login>)
    requires cfg.Valid() && Ordered(run)
    ensures TableOk(cfg, TableAfter(cfg, run), LastTime(run))
  {
    if run == [] {
    } else {
      var before, l := run[..|run| - 1], run[|run| - 1];
      OrderedPrefix(run);
      RunKeepsTable(cfg, before);
      var t := TableAfter(cfg, before);
      CheckKeepsTable(cfg, t, l, LastTime(before));
      var t1 := Checked(cfg, t, Keys(cfg, l.username, l.source), l.checkedAt).0;
      RecordKeepsTable(cfg, t1, l, l.checkedAt);
      TimeKeepsTable(cfg, t1, l.checkedAt, l.recordedAt);
      hide TableOk, Checked, Recorded, Keys;
    }
  }

  lemma TimeKeepsTable(cfg: Config, t: Table, now: nat, later: nat)
    requires TableOk(cfg, t, now) && now <= later
    ensures TableOk(cfg, t, later)
  {
    forall k | k in t ensures DequeOk(cfg, t[k], k, later) { assert DequeOk(cfg, t[k], k, now); }
  }

  /** The attempt would be refused at `now`. */
  predicate IsRefused(cfg: Config, t: Table, username: string, source: Option<string>, now: nat) {
    Checked(cfg, t, Keys(cfg, username, source), now).1.Some?
  }

  /** An entry counts while it is no older than the window; before the clock is as old, only in its own tick. */
  ghost predicate IsLive(cfg: Config, entry: nat, now: nat) {
    if now >= cfg.window then entry + cfg.window >= now else entry >= now
  }

  ghost predicate IsSpent(cfg: Config, t: Table, key: string, limit: nat, now: nat) {
    key in t && |set i | 0 <= i < |t[key]| && IsLive(cfg, t[key][i], now)| >= limit
  }

  /** The latest entry of the key counts. */
  ghost predicate IsKept(cfg: Config, t: Table, key: string, now: nat) {
    key in t && t[key] != [] && IsLive(cfg, t[key][|t[key]| - 1], now)
  }

  ghost predicate IsFull(cfg: Config, t: Table, now: nat) {
    |set k | k in t && IsKept(cfg, t, k, now)| >= 10_000
  }

  lemma {:induction false} LiveFrom(cfg: Config, entries: seq<nat>, now: nat, n: nat, k: nat)
    requires n <= k <= |entries| && forall i :: 0 <= i < |entries| ==> (IsLive(cfg, entries[i], now) <==> i >= n)
    ensures |set i | 0 <= i < k && IsLive(cfg, entries[i], now)| == k - n
  {
    hide IsLive;
    var live := set i | 0 <= i < k && IsLive(cfg, entries[i], now);
    if n < k {
      LiveFrom(cfg, entries, now, n, k - 1);
      assert live == (set i | 0 <= i < k - 1 && IsLive(cfg, entries[i], now)) + {k - 1};
    } else {
      assert live == {};
    }
  }

  lemma LiveCount(cfg: Config, entries: seq<nat>, now: nat)
    requires Sorted(entries)
    ensures |set i | 0 <= i < |entries| && IsLive(cfg, entries[i], now)| == |Fresh(entries, Cutoff(cfg, now))|
    ensures Fresh(entries, Cutoff(cfg, now)) != [] ==> IsLive(cfg, entries[|entries| - 1], now)
  {
    var live := Fresh(entries, Cutoff(cfg, now));
    FreshIsSuffix(entries, Cutoff(cfg, now));
    hide Fresh;
    var n := |entries| - |live|;
    if live != [] { assert live[0] == entries[n]; }
    LiveFrom(cfg, entries, now, n, |entries|);
  }

  /** Before the clean-up of a full table and after it, a key asks for a wait exactly if it is spent. */
  lemma WaitExactly(cfg: Config, t: Table, key: string, limit: nat, now: nat)
    requires Sorted(Deque(t, key)) && limit > 0
    ensures KeyWait(cfg, Retained(t, Cutoff(cfg, now)), key, limit, now).Some? <==> IsSpent(cfg, t, key, limit, now)
  {
    if key in t { LiveCount(cfg, t[key], now); }
    hide Fresh;
  }

  lemma RetainedExactly(cfg: Config, t: Table, key: string, now: nat)
    requires |t| <= MAX_RATE_LIMIT_KEYS
    ensures var t1 := Retained(t, Cutoff(cfg, now));
            && (|t1| >= MAX_RATE_LIMIT_KEYS <==> IsFull(cfg, t, now))
            && (IsFull(cfg, t, now) ==> (key in t1 <==> IsKept(cfg, t, key, now)))
  {
    var t1, kept := Retained(t, Cutoff(cfg, now)), set k | k in t && IsKept(cfg, t, k, now);
    if |t| >= MAX_RATE_LIMIT_KEYS {
      assert t1.Keys == kept;
    } else {
      assert kept <= t.Keys;
      SmallerSet(kept, t.Keys);
    }
  }

  lemma SmallerSet<T>(a: set<T>, b: set<T>)
    requires a <= b
    ensures |a| <= |b|
  {
    assert b == a + (b - a);
  }

  /**
   * An attempt is refused exactly if one of its keys has as many entries that count as its limit, or if ten thousand
   * keys have an entry that counts and one of its own has none.
   */
  lemma RefusedExactly(cfg: Config, t: Table, username: string, source: Option<string>, now: nat)
    requires cfg.Valid() && |t| <= MAX_RATE_LIMIT_KEYS && Sorted(Deque(t, AccountKey(username)))
    requires source.Some? ==> Sorted(Deque(t, SourceKey(source.value)))
    ensures IsRefused(cfg, t, username, source, now) <==>
              || IsSpent(cfg, t, AccountKey(username), cfg.maxAccount, now)
              || (source.Some? && IsSpent(cfg, t, SourceKey(source.value), cfg.maxSource, now))
              || (IsFull(cfg, t, now) && !IsKept(cfg, t, AccountKey(username), now))
              || (IsFull(cfg, t, now) && source.Some? && !IsKept(cfg, t, SourceKey(source.value), now))
  {
    hide Retained, KeyWait, LongestWait, IsSpent, IsFull, IsKept, AccountKey, SourceKey, ExpireKeys, Cutoff;
    var t1, keys := Retained(t, Cutoff(cfg, now)), Keys(cfg, username, source);
    LongestUnfolds(cfg, t1, username, source, now);
    WaitExactly(cfg, t, AccountKey(username), cfg.maxAccount, now);
    RetainedExactly(cfg, t, AccountKey(username), now);
    assert keys[0].0 == AccountKey(username);
    if source.Some? {
      WaitExactly(cfg, t, SourceKey(source.value), cfg.maxSource, now);
      RetainedExactly(cfg, t, SourceKey(source.value), now);
      assert keys[1].0 == SourceKey(source.value);
    }
  }

  /** The spelling of a username changes nothing about a login. */
  lemma SpellingIsIrrelevant(cfg: Config, t: Table, l: Login, username: string)
    requires SameAccount(l.username, username)
    ensures LoginStep(cfg, t, l.(username := username)) == LoginStep(cfg, t, l)
  {
    hide AccountKey, SameAccount;
    AccountKeyExact(l.username, username);
    assert Keys(cfg, username, l.source) == Keys(cfg, l.username, l.source);
  }

  /** Refusal comes before lockout, lockout before the credential, and only a rejected credential adds an entry. */
  lemma OutcomeExactly(cfg: Config, t: Table, l: Login, key: string)
    ensures var (t', outcome) := LoginStep(cfg, t, l);
            var refused := IsRefused(cfg, t, l.username, l.source, l.checkedAt);
            && (outcome.Refused? <==> refused)
            && (outcome == LockedOut <==> !refused && l.lockedOut)
            && (outcome == Rejected <==> !refused && !l.lockedOut && l.rejected)
            && (outcome == Accepted <==> !refused && !l.lockedOut && !l.rejected)
            && (outcome != Rejected ==> |Deque(t', key)| <= |Deque(t, key)|)
  {
    CheckedDeque(cfg, t, l, key);
    hide Checked, Keys, Recorded;
  }

  lemma KeyWaitOfDeque(cfg: Config, t: Table, key: string, limit: nat, now: nat)
    ensures KeyWait(cfg, t, key, limit, now) == EntryWait(cfg, Fresh(Deque(t, key), Cutoff(cfg, now)), limit, now)
  {
  }

  /** Dropping the keys whose latest entry has expired drops nothing that counts. */
  lemma RetainedFresh(t: Table, key: string, a: nat, b: nat)
    requires Sorted(Deque(t, key)) && a <= b
    ensures Fresh(Deque(Retained(t, a), key), b) == Fresh(Deque(t, key), b)
  {
    FreshIsSuffix(Deque(t, key), b);
  }

  lemma LongestUnfolds(cfg: Config, t: Table, username: string, source: Option<string>, now: nat)
    ensures LongestWait(cfg, t, Keys(cfg, username, source), now) ==
              Longer(KeyWait(cfg, t, AccountKey(username), cfg.maxAccount, now),
                     match source case None => None case Some(s) => KeyWait(cfg, t, SourceKey(s), cfg.maxSource, now))
  {
    var keys := Keys(cfg, username, source);
    NextKeyUnfolds(cfg, t, keys, 0, now);
    assert keys[..0] == [] && LongestWait(cfg, t, [], now) == None;
    hide KeyWait, AccountKey, SourceKey, LongestWait, ExpireKeys;
    if source.Some? {
      NextKeyUnfolds(cfg, t, keys, 1, now);
      assert keys[..2] == keys;
    } else {
      assert keys[..1] == keys;
    }
  }

  /** The attempt finds the table full of live keys, not all of its own among them. */
  predicate FindsTableFull(cfg: Config, t: Table, username: string, source: Option<string>, now: nat) {
    Saturated(Retained(t, Cutoff(cfg, now)), Keys(cfg, username, source))
  }

  lemma WaitUnfolds(cfg: Config, t: Table, username: string, source: Option<string>, now: nat)
    requires |t| < MAX_RATE_LIMIT_KEYS || forall k :: k in t ==> Sorted(t[k])
    ensures Checked(cfg, t, Keys(cfg, username, source), now).1 ==
              if FindsTableFull(cfg, t, username, source, now) then Some(cfg.window)
              else Longer(KeyWait(cfg, t, AccountKey(username), cfg.maxAccount, now),
                          match source
                          case None => None
                          case Some(s) => KeyWait(cfg, t, SourceKey(s), cfg.maxSource, now))
  {
    hide Retained, ExpireKeys, LongestWait, Saturated, Fresh, AccountKey, SourceKey, KeyWait, Keys;
    var cutoff := Cutoff(cfg, now);
    var t1 := Retained(t, cutoff);
    LongestUnfolds(cfg, t1, username, source, now);
    RetainedWait(cfg, t, AccountKey(username), cfg.maxAccount, now);
    if source.Some? { RetainedWait(cfg, t, SourceKey(source.value), cfg.maxSource, now); }
  }

  lemma RetainedWait(cfg: Config, t: Table, key: string, limit: nat, now: nat)
    requires |t| < MAX_RATE_LIMIT_KEYS || forall k :: k in t ==> Sorted(t[k])
    ensures KeyWait(cfg, Retained(t, Cutoff(cfg, now)), key, limit, now) == KeyWait(cfg, t, key, limit, now)
  {
    if |t| >= MAX_RATE_LIMIT_KEYS {
      RetainedFresh(t, key, Cutoff(cfg, now), Cutoff(cfg, now));
      KeyWaitOfDeque(cfg, t, key, limit, now);
      KeyWaitOfDeque(cfg, Retained(t, Cutoff(cfg, now)), key, limit, now);
    }
  }

  /** A table that is full of live keys later is full of live keys now. */
  lemma FullLaterIsFullNow(t: Table, keys: seq<(string, nat)>, a: nat, b: nat)
    requires |t| <= MAX_RATE_LIMIT_KEYS && a <= b && Saturated(Retained(t, b), keys)
    ensures Saturated(Retained(t, a), keys)
  {
    RetainedSize(t, b, "");
    SameSize(Retained(t, b).Keys, t.Keys);
    assert Retained(t, b).Keys <= Retained(t, a).Keys;
    RetainedSize(t, a, "");
    assert Retained(t, a).Keys == t.Keys;
    assert |Retained(t, a).Keys| == |Retained(t, a)|;
  }

  lemma SameSize<T>(a: set<T>, b: set<T>)
    requires a <= b && |a| == |b|
    ensures a == b
  {
    assert b == a + (b - a);
  }

  /** One key refuses at `later` exactly until its oldest entry, among a full window of them, has left the window. */
  lemma KeyWaitIsTight(cfg: Config, t: Table, key: string, limit: nat, now: nat, later: nat)
    requires limit > 0 && cfg.window <= now <= later && |Deque(t, key)| <= limit && Sorted(Deque(t, key))
    requires forall i :: 0 <= i < |Deque(t, key)| ==> Deque(t, key)[i] <= now
    ensures KeyWait(cfg, t, key, limit, later).Some? <==>
              KeyWait(cfg, t, key, limit, now).Some? && later <= now + KeyWait(cfg, t, key, limit, now).value
  {
    var d := Deque(t, key);
    FreshIsSuffix(d, now - cfg.window);
    FreshIsSuffix(d, later - cfg.window);
  }

  /**
   * The wait is exact: refused up to and including `now + wait`, admitted at every later time, unless the refusal
   * was for want of a slot.
   */
  lemma RetryIsTight(cfg: Config, t: Table, username: string, source: Option<string>, now: nat, wait: nat, later: nat)
    requires cfg.Valid() && TableOk(cfg, t, now) && cfg.window <= now <= later
    requires Checked(cfg, t, Keys(cfg, username, source), now).1 == Some(wait)
    requires !FindsTableFull(cfg, t, username, source, now)
    ensures IsRefused(cfg, t, username, source, later) <==> later <= now + wait
  {
    DequesAreSorted(cfg, t, now);
    WaitUnfolds(cfg, t, username, source, now);
    WaitUnfolds(cfg, t, username, source, later);
    if FindsTableFull(cfg, t, username, source, later) {
      FullLaterIsFullNow(t, Keys(cfg, username, source), Cutoff(cfg, now), Cutoff(cfg, later));
    }
    LimitsOfKeys(cfg, username, if source.Some? then source.value else "");
    hide Checked, Keys, AccountKey, SourceKey, LimitOf, KeyWait, FindsTableFull;
    KeyWaitIsTight(cfg, t, AccountKey(username), cfg.maxAccount, now, later);
    if source.Some? { KeyWaitIsTight(cfg, t, SourceKey(source.value), cfg.maxSource, now, later); }
  }

  lemma DequesAreSorted(cfg: Config, t: Table, now: nat)
    requires TableOk(cfg, t, now)
    ensures forall k :: k in t ==> Sorted(t[k])
  {
    forall k | k in t ensures Sorted(t[k]) { assert DequeOk(cfg, t[k], k, now); }
  }

  /** No key of the table has expired: the latest entry of each is still in the window. */
  ghost predicate AllLive(cfg: Config, t: Table, time: nat) {
    forall k :: k in t ==> t[k] != [] && time <= t[k][|t[k]| - 1] + cfg.window
  }

  lemma FullWhileLive(cfg: Config, t: Table, username: string, source: Option<string>, now: nat, later: nat)
    requires |t| <= MAX_RATE_LIMIT_KEYS && cfg.window <= now <= later && FindsTableFull(cfg, t, username, source, now)
    ensures FindsTableFull(cfg, t, username, source, later) <==> AllLive(cfg, t, later)
  {
    hide Keys;
    RetainedSize(t, Cutoff(cfg, now), "");
    SameSize(Retained(t, Cutoff(cfg, now)).Keys, t.Keys);
    var kept := Retained(t, Cutoff(cfg, later));
    RetainedSize(t, Cutoff(cfg, later), "");
    if AllLive(cfg, t, later) {
      assert kept == t;
    } else if |kept| >= MAX_RATE_LIMIT_KEYS {
      SameSize(kept.Keys, t.Keys);
    }
  }

  /**
   * An attempt refused for want of a slot is refused exactly while no key of the table has expired or one of its own
   * keys asks for a wait.
   */
  lemma FullTableRefusesExactly(cfg: Config, t: Table, username: string, source: Option<string>, now: nat, later: nat)
    requires cfg.Valid() && TableOk(cfg, t, now) && cfg.window <= now <= later
    requires FindsTableFull(cfg, t, username, source, now)
    ensures IsRefused(cfg, t, username, source, later) <==>
              || AllLive(cfg, t, later)
              || KeyWait(cfg, t, AccountKey(username), cfg.maxAccount, later).Some?
              || (source.Some? && KeyWait(cfg, t, SourceKey(source.value), cfg.maxSource, later).Some?)
  {
    DequesAreSorted(cfg, t, now);
    hide Checked, Keys, AccountKey, SourceKey, KeyWait, FindsTableFull, AllLive, Sorted, DequeOk;
    WaitUnfolds(cfg, t, username, source, later);
    FullWhileLive(cfg, t, username, source, now, later);
  }

  /** Whatever the refusal was for, the wait is long enough. */
  lemma WaitSuffices(cfg: Config, t: Table, username: string, source: Option<string>, now: nat, wait: nat, later: nat)
    requires cfg.Valid() && TableOk(cfg, t, now) && cfg.window <= now
    requires Checked(cfg, t, Keys(cfg, username, source), now).1 == Some(wait) && later > now + wait
    ensures !IsRefused(cfg, t, username, source, later)
  {
    if FindsTableFull(cfg, t, username, source, now) {
      var none := Retained(t, Cutoff(cfg, later));
      forall k | k in t ensures k !in none { assert DequeOk(cfg, t[k], k, now); }
      assert none == map[];
      LongestUnfolds(cfg, none, username, source, later);
    } else {
      RetryIsTight(cfg, t, username, source, now, wait, later);
    }
  }

  /** A consultation of the limiter, by anyone, changes no later verdict. */
  lemma CheckingIsHarmless(cfg: Config, t: Table, other: Login, username: string, source: Option<string>, later: nat)
    requires |t| < MAX_RATE_LIMIT_KEYS || TableOk(cfg, t, other.checkedAt)
    requires cfg.window <= other.checkedAt <= later
    ensures var t' := Checked(cfg, t, Keys(cfg, other.username, other.source), other.checkedAt).0;
            && |t'| <= |t|
            && (IsRefused(cfg, t', username, source, later) <==> IsRefused(cfg, t, username, source, later))
  {
    var t' := Checked(cfg, t, Keys(cfg, other.username, other.source), other.checkedAt).0;
    CheckedSize(cfg, t, other);
    if |t| >= MAX_RATE_LIMIT_KEYS {
      DequesAreSorted(cfg, t, other.checkedAt);
      CheckKeepsTable(cfg, t, other, other.checkedAt);
      DequesAreSorted(cfg, t', other.checkedAt);
    }
    CheckKeepsWait(cfg, t, other, AccountKey(username), cfg.maxAccount, later);
    if source.Some? { CheckKeepsWait(cfg, t, other, SourceKey(source.value), cfg.maxSource, later); }
    CheckKeepsRoom(cfg, t, other, Keys(cfg, username, source), later);
    hide Checked, Keys, AccountKey, SourceKey, KeyWait, Saturated, Retained;
    WaitUnfolds(cfg, t, username, source, later);
    WaitUnfolds(cfg, t', username, source, later);
  }

  lemma CheckedSize(cfg: Config, t: Table, other: Login)
    ensures var t1 := Retained(t, Cutoff(cfg, other.checkedAt));
            var t' := Checked(cfg, t, Keys(cfg, other.username, other.source), other.checkedAt).0;
            t'.Keys == t1.Keys && |t'| == |t1| <= |t|
  {
    var cutoff := Cutoff(cfg, other.checkedAt);
    var t1 := Retained(t, cutoff);
    RetainedSize(t, cutoff, "");
    ExpiredDeque(cfg, t1, other.username, other.source, cutoff, "");
    hide Retained, ExpireKeys, Keys, Saturated, LongestWait;
    assert |ExpireKeys(t1, Keys(cfg, other.username, other.source), cutoff).Keys| == |t1.Keys|;
  }

  /** What a consultation leaves of a deque. */
  lemma CheckedDeque(cfg: Config, t: Table, other: Login, key: string)
    ensures var cutoff := Cutoff(cfg, other.checkedAt);
            var d := Deque(Retained(t, cutoff), key);
            var t' := Checked(cfg, t, Keys(cfg, other.username, other.source), other.checkedAt).0;
            Deque(t', key) == d || Deque(t', key) == Fresh(d, cutoff)
  {
    var cutoff := Cutoff(cfg, other.checkedAt);
    ExpiredDeque(cfg, Retained(t, cutoff), other.username, other.source, cutoff, key);
  }

  lemma CheckKeepsWait(cfg: Config, t: Table, other: Login, key: string, limit: nat, later: nat)
    requires |t| < MAX_RATE_LIMIT_KEYS || TableOk(cfg, t, other.checkedAt)
    requires cfg.window <= other.checkedAt <= later
    ensures var t' := Checked(cfg, t, Keys(cfg, other.username, other.source), other.checkedAt).0;
            KeyWait(cfg, t', key, limit, later) == KeyWait(cfg, t, key, limit, later)
  {
    var a, b := Cutoff(cfg, other.checkedAt), Cutoff(cfg, later);
    var t1 := Retained(t, a);
    var t' := Checked(cfg, t, Keys(cfg, other.username, other.source), other.checkedAt).0;
    CheckedDeque(cfg, t, other, key);
    FreshTwice(Deque(t1, key), a, b);
    if |t| >= MAX_RATE_LIMIT_KEYS {
      if key in t { assert DequeOk(cfg, t[key], key, other.checkedAt); }
      RetainedFresh(t, key, a, b);
    }
    KeyWaitOfDeque(cfg, t, key, limit, later);
    KeyWaitOfDeque(cfg, t', key, limit, later);
  }

  /** Whether a table is saturated depends on its keys alone. */
  lemma SaturatedByKeys(a: Table, b: Table, keys: seq<(string, nat)>)
    requires a.Keys == b.Keys
    ensures Saturated(a, keys) <==> Saturated(b, keys)
  {
    assert |a.Keys| == |a| && |b.Keys| == |b|;
  }

  ghost predicate SameLatest(d: seq<nat>, e: seq<nat>) {
    d != [] && e != [] && d[|d| - 1] == e[|e| - 1]
  }

  lemma RetainedByLatest(t: Table, t': Table, cutoff: nat)
    requires t'.Keys == t.Keys && |t'| == |t| >= MAX_RATE_LIMIT_KEYS
    requires forall k :: k in t ==> SameLatest(t'[k], t[k])
    ensures Retained(t', cutoff).Keys == Retained(t, cutoff).Keys
  {
    forall k ensures k in Retained(t', cutoff) <==> k in Retained(t, cutoff) {
      assert k in t ==> SameLatest(t'[k], t[k]);
    }
  }

  /** A consultation of a table full of live keys keeps the latest entry of each. */
  lemma CheckKeepsLatest(cfg: Config, t: Table, other: Login, k: string)
    requires k in t && k in Retained(t, Cutoff(cfg, other.checkedAt)) && |t| >= MAX_RATE_LIMIT_KEYS
    ensures var t' := Checked(cfg, t, Keys(cfg, other.username, other.source), other.checkedAt).0;
            k in t' && SameLatest(t'[k], t[k])
  {
    CheckedSize(cfg, t, other);
    CheckedDeque(cfg, t, other, k);
    FreshIsSuffix(t[k], Cutoff(cfg, other.checkedAt));
    hide Checked, Keys, Fresh;
  }

  lemma CheckKeepsRoom(cfg: Config, t: Table, other: Login, keys: seq<(string, nat)>, later: nat)
    requires |t| < MAX_RATE_LIMIT_KEYS || TableOk(cfg, t, other.checkedAt)
    requires cfg.window <= other.checkedAt <= later
    ensures var t' := Checked(cfg, t, Keys(cfg, other.username, other.source), other.checkedAt).0;
            Saturated(Retained(t', Cutoff(cfg, later)), keys) <==> Saturated(Retained(t, Cutoff(cfg, later)), keys)
  {
    var a, b := Cutoff(cfg, other.checkedAt), Cutoff(cfg, later);
    var t' := Checked(cfg, t, Keys(cfg, other.username, other.source), other.checkedAt).0;
    hide Checked, Keys;
    CheckedSize(cfg, t, other);
    RetainedSize(t, a, "");
    if |t'| < MAX_RATE_LIMIT_KEYS {
      if Saturated(Retained(t, b), keys) { FullLaterIsFullNow(t, keys, a, b); }
    } else {
      hide Retained, SameLatest, Saturated, DequeOk;
      SameSize(Retained(t, a).Keys, t.Keys);
      forall k | k in t ensures SameLatest(t'[k], t[k]) { CheckKeepsLatest(cfg, t, other, k); }
      RetainedByLatest(t, t', b);
      SaturatedByKeys(Retained(t', b), Retained(t, b), keys);
    }
  }

  lemma {:induction false} FreshTwice(d: seq<nat>, a: nat, b: nat)
    requires a <= b
    ensures Fresh(Fresh(d, a), b) == Fresh(d, b)
  {
    if d != [] && d[0] < a { FreshTwice(d[1..], a, b); }
  }

  /** The whole seconds that a refused caller is told to wait. */
  function ReportedSeconds(wait: nat, ticksPerSecond: nat): nat
    requires ticksPerSecond > 0
  {
    if wait / ticksPerSecond >= 1 then wait / ticksPerSecond else 1
  }

  /** Retrying after exactly the reported seconds is admitted only when the wait is less than one second. */
  lemma ReportedWaitFallsShort(cfg: Config, t: Table, username: string, source: Option<string>, now: nat, wait: nat,
                               tps: nat)
    requires cfg.Valid() && TableOk(cfg, t, now) && cfg.window <= now && tps > 0
    requires Checked(cfg, t, Keys(cfg, username, source), now).1 == Some(wait)
    requires !FindsTableFull(cfg, t, username, source, now)
    ensures IsRefused(cfg, t, username, source, now + ReportedSeconds(wait, tps) * tps) <==> wait >= tps
  {
    RetryIsTight(cfg, t, username, source, now, wait, now + ReportedSeconds(wait, tps) * tps);
    assert wait == (wait / tps) * tps + wait % tps;
    if wait < tps { assert wait / tps == 0; } else { assert wait / tps >= 1; }
  }

  // ===== Why the clock must have run for a window =====

  function Burst(username: string, at: nat, n: nat): seq<Login> { seq(n, i => TryAt(username, at)) }

  function Times(at: nat, n: nat): seq<nat> { seq(n, i => at) }

  function Alone(username: string, entries: seq<nat>): Table {
    if entries == [] then map[] else map[AccountKey(username) := entries]
  }

  lemma YoungCheck(cfg: Config, username: string, entries: seq<nat>, now: nat)
    requires cfg.Valid() && now < cfg.window && |Fresh(entries, now)| < cfg.maxAccount
    ensures var (t, wait) := Checked(cfg, Alone(username, entries), Keys(cfg, username, None), now);
            && wait.None? && t.Keys == Alone(username, entries).Keys
            && Deque(t, AccountKey(username)) == Fresh(entries, now)
  {
    var t := Alone(username, entries);
    AloneDeque(username, entries);
    hide AccountKey, Alone, Fresh, Keys;
    BelowCap(cfg, t, username, now);
    ExpiredDeque(cfg, t, username, None, now, AccountKey(username));
  }

  lemma AloneDeque(username: string, entries: seq<nat>)
    ensures |Alone(username, entries)| < MAX_RATE_LIMIT_KEYS
    ensures Deque(Alone(username, entries), AccountKey(username)) == entries
  {
  }

  lemma BelowCap(cfg: Config, t: Table, username: string, now: nat)
    requires |t| < MAX_RATE_LIMIT_KEYS
    requires |Fresh(Deque(t, AccountKey(username)), Cutoff(cfg, now))| < cfg.maxAccount
    ensures var keys := Keys(cfg, username, None);
            Checked(cfg, t, keys, now) == (ExpireKeys(t, keys, Cutoff(cfg, now)), None)
  {
    hide AccountKey, Keys, ExpireKeys, LongestWait, KeyWait, Fresh;
    LongestUnfolds(cfg, t, username, None, now);
    KeyWaitOfDeque(cfg, t, AccountKey(username), cfg.maxAccount, now);
  }

  lemma YoungCharge(cfg: Config, t: Table, username: string, now: nat)
    requires cfg.Valid() && now < cfg.window && t.Keys <= {AccountKey(username)}
    requires var e := Deque(t, AccountKey(username)); |e| < cfg.maxAccount && Fresh(e, now) == e
    ensures Recorded(cfg, t, Keys(cfg, username, None), now) ==
              Alone(username, Deque(t, AccountKey(username)) + [now])
  {
    RecordedUnfolds(cfg, t, TryAt(username, now));
    hide AccountKey, Keys, RecordKeys, Recorded, Fresh;
    var key := AccountKey(username);
    SubsetIsSmaller(t.Keys, {key});
    assert |t.Keys| == |t|;
    var t' := RecordOne(t, key, cfg.maxAccount, now, now);
    assert t'.Keys == {key} && t'[key] == Deque(t, key) + [now];
  }

  /** On a young clock the attempt is charged beside the failures of this very tick. */
  lemma YoungAttempt(cfg: Config, username: string, entries: seq<nat>, now: nat)
    requires cfg.Valid() && now < cfg.window && |Fresh(entries, now)| < cfg.maxAccount
    ensures LoginStep(cfg, Alone(username, entries), TryAt(username, now)) ==
              (Alone(username, Fresh(entries, now) + [now]), Rejected)
  {
    YoungCheck(cfg, username, entries, now);
    var t := Checked(cfg, Alone(username, entries), Keys(cfg, username, None), now).0;
    FreshTwice(entries, now, now);
    assert t.Keys <= {AccountKey(username)};
    hide AccountKey, Keys, Checked, Recorded, Fresh, Alone;
    YoungCharge(cfg, t, username, now);
  }

  lemma BurstOneMore(username: string, at: nat, n: nat)
    ensures Burst(username, at, n + 1) == Burst(username, at, n) + [TryAt(username, at)]
    ensures Times(at, n + 1) == Times(at, n) + [at] && Fresh(Times(at, n), at) == Times(at, n)
    ensures |Times(at, n)| == n
  {
    FreshIsSuffix(Times(at, n), at);
  }

  lemma {:induction false} BurstIsEvaluated(cfg: Config, username: string, at: nat, n: nat)
    requires cfg.Valid() && at < cfg.window && n <= cfg.maxAccount
    ensures TableAfter(cfg, Burst(username, at, n)) == Alone(username, Times(at, n))
    ensures FailuresOf(cfg, Burst(username, at, n), AccountKey(username)) == Times(at, n)
  {
    if n == 0 {
      assert Burst(username, at, n) == [] && Times(at, n) == [];
    } else {
      hide LoginStep, Alone, Burst, Times, Fresh, TableAfter, FailuresOf, AccountKey;
      BurstIsEvaluated(cfg, username, at, n - 1);
      BurstOneMore(username, at, n - 1);
      YoungAttempt(cfg, username, Times(at, n - 1), at);
      RunOneMore(cfg, Burst(username, at, n - 1), TryAt(username, at), AccountKey(username));
    }
  }

  lemma {:induction false} AllWithin(h: seq<nat>, lo: nat, hi: nat)
    requires forall i :: 0 <= i < |h| ==> lo <= h[i] <= hi
    ensures |Within(h, lo, hi)| == |h|
  {
    if h == [] {
    } else {
      var n := |h| - 1;
      AllWithin(h[..n], lo, hi);
      assert Within(h, lo, hi) == Within(h[..n], lo, hi) + {n};
    }
  }

  /** A full budget of failures at one tick of a young clock, and one more at the next. */
  function BurstAndOne(cfg: Config, username: string, at: nat): seq<Login> {
    Burst(username, at, cfg.maxAccount) + [TryAt(username, at + 1)]
  }

  /** The cutoff of a clock younger than the window is the present, so the failures of the tick before are forgotten. */
  lemma YoungClockForgets(cfg: Config, username: string, at: nat, lo: nat)
    requires cfg.Valid() && at + 1 < cfg.window && lo <= at
    ensures var run := BurstAndOne(cfg, username, at);
            && OrderedFrom(at, run)
            && |Within(AccountFailures(cfg, run, username), lo, lo + cfg.window)| > cfg.maxAccount
  {
    BurstIsOrdered(cfg, username, at);
    hide LoginStep, TableAfter, Alone, OrderedFrom, Fresh, FailuresOf, AccountFailures, Burst, AccountKey;
    AccountFailuresAre(cfg, BurstAndOne(cfg, username, at), username);
    var n := cfg.maxAccount;
    var run := BurstAndOne(cfg, username, at);
    BurstIsEvaluated(cfg, username, at, n);
    FreshIsSuffix(Times(at, n), at + 1);
    YoungAttempt(cfg, username, Times(at, n), at + 1);
    RunOneMore(cfg, Burst(username, at, n), TryAt(username, at + 1), AccountKey(username));
    var h := FailuresOf(cfg, run, AccountKey(username));
    assert h == Times(at, n) + [at + 1];
    AllWithin(h, lo, lo + cfg.window);
  }

  /** The evaluated failures of the account in the closed window from `lo` on. */
  ghost function FailuresFrom(cfg: Config, run: seq<Login>, username: string, lo: nat): set<nat> {
    Within(AccountFailures(cfg, run, username), lo, lo + cfg.window)
  }

  ghost predicate KeepsBudget(cfg: Config, run: seq<Login>, username: string, lo: nat) {
    |FailuresFrom(cfg, run, username, lo)| <= cfg.maxAccount
  }

  lemma LaterStart(earlier: nat, start: nat, run: seq<Login>)
    requires OrderedFrom(start, run) && earlier <= start
    ensures OrderedFrom(earlier, run) && Ordered(run)
  {
  }

  lemma BurstIsOrdered(cfg: Config, username: string, at: nat)
    ensures OrderedFrom(at, BurstAndOne(cfg, username, at))
  {
  }

  lemma {:induction false} FailuresAfterStart(cfg: Config, run: seq<Login>, key: string, start: nat)
    requires OrderedFrom(start, run)
    ensures forall i :: 0 <= i < |FailuresOf(cfg, run, key)| ==> start <= FailuresOf(cfg, run, key)[i]
  {
    if run == [] {
    } else {
      hide LoginStep, Charges;
      FailuresAfterStart(cfg, run[..|run| - 1], key, start);
    }
  }

  lemma OldClockKeepsBudget(cfg: Config, run: seq<Login>, username: string, start: nat, lo: nat)
    requires cfg.Valid() && OrderedFrom(start, run) && (start + 1 >= cfg.window || lo + 1 >= cfg.window)
    ensures KeepsBudget(cfg, run, username, lo)
  {
    hide Ordered, OrderedFrom, FailuresOf, AccountFailures, AccountKey, Within;
    LaterStart(0, start, run);
    AccountFailuresAre(cfg, run, username);
    var h := AccountFailures(cfg, run, username);
    if lo + 1 >= cfg.window {
      AccountBudget(cfg, run, username, lo);
    } else {
      AccountBudget(cfg, run, username, OldEnough(cfg));
      FailuresAfterStart(cfg, run, AccountKey(username), start);
      EarlierWindow(h, lo, OldEnough(cfg), cfg.window);
    }
  }

  /** Nothing happened before `from`, so a window that starts earlier holds no more. */
  lemma EarlierWindow(h: seq<nat>, lo: nat, from: nat, window: nat)
    requires lo <= from && forall i :: 0 <= i < |h| ==> from <= h[i]
    ensures |Within(h, lo, lo + window)| <= |Within(h, from, from + window)|
  {
    SubsetIsSmaller(Within(h, lo, lo + window), Within(h, from, from + window));
  }

  /**
   * Every run from `start` on keeps the account budget in the window from `lo` on, exactly if the clock is old
   * enough at the start of the run or of the window.
   */
  lemma WindowNeedsOldClock(cfg: Config, username: string, start: nat, lo: nat)
    requires cfg.Valid()
    ensures (forall run :: OrderedFrom(start, run) ==> KeepsBudget(cfg, run, username, lo)) <==>
              start + 1 >= cfg.window || lo + 1 >= cfg.window
  {
    hide OrderedFrom, AccountFailures, Within, BurstAndOne;
    if start + 1 >= cfg.window || lo + 1 >= cfg.window {
      hide KeepsBudget;
      forall run | OrderedFrom(start, run) ensures KeepsBudget(cfg, run, username, lo) {
        OldClockKeepsBudget(cfg, run, username, start, lo);
      }
    } else {
      var at := if start <= lo then lo else start;
      YoungClockForgets(cfg, username, at, lo);
      var run := BurstAndOne(cfg, username, at);
      LaterStart(start, at, run);
      assert OrderedFrom(start, run) && !KeepsBudget(cfg, run, username, lo);
    }
  }

  /** So every run from `start` on keeps the account budget in every window exactly if the clock is then old enough. */
  lemma BudgetNeedsOldClock(cfg: Config, username: string, start: nat)
    requires cfg.Valid()
    ensures (forall run, lo: nat :: OrderedFrom(start, run) ==> KeepsBudget(cfg, run, username, lo)) <==>
              start + 1 >= cfg.window
  {
    hide OrderedFrom, KeepsBudget;
    WindowNeedsOldClock(cfg, username, start, 0);
    forall run, lo: nat | OrderedFrom(start, run) && start + 1 >= cfg.window
      ensures KeepsBudget(cfg, run, username, lo)
    {
      OldClockKeepsBudget(cfg, run, username, start, lo);
    }
  }
}
