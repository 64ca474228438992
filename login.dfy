/**
 * The login-page module: the lockout check run on `authenticate`, the
 * per-IP failure counter kept in a transient, and the filters that
 * replace the header link and title and add a body class. The plugin
 * settings (wpca_get_settings) and the clock are parameters; the escaping
 * functions are parameters of each filter.
 */
module Login {
  import opened Wrappers
  import opened PhpValues

  /** `$settings['login'][$name]` when it is set. */
  function LoginField(settings: Value, name: string): Option<Value>
  {
    if settings.VArr? && IsSetKey(settings.entries, KStr("login")) then
      var l := Lookup(settings.entries, KStr("login")).value;
      if l.VArr? && IsSetKey(l.entries, KStr(name)) then Lookup(l.entries, KStr(name)) else None
    else None
  }

  /** max_login_attempts: `intval` of the setting, 5 when it is not set. */
  function MaxAttempts(settings: Value): (n: int)
    ensures LoginField(settings, "max_login_attempts").None? ==> n == 5
  {
    var f := LoginField(settings, "max_login_attempts");
    if f.Some? then IntVal(f.value) else 5
  }

  /** lockout_duration: `intval` of the setting, 300 when it is not set. */
  function LockoutDuration(settings: Value): (n: int)
    ensures LoginField(settings, "lockout_duration").None? ==> n == 300
  {
    var f := LoginField(settings, "lockout_duration");
    if f.Some? then IntVal(f.value) else 300
  }

  /**
   * `$login_attempts >= $max_attempts` where get_transient gave the counter
   * or false: PHP compares false with an integer as booleans, so a missing
   * counter reaches only a maximum of 0.
   */
  predicate LockedOut(attempts: Option<int>, max: int)
  {
    if attempts.None? then max == 0 else attempts.value >= max
  }

  /** `$login_attempts ? $login_attempts + 1 : 1`. */
  function Incremented(attempts: Option<int>): (n: int)
    ensures attempts.None? || attempts.value == 0 ==> n == 1
    ensures attempts.Some? && attempts.value != 0 ==> n == attempts.value + 1
  {
    if attempts.Some? && attempts.value != 0 then attempts.value + 1 else 1
  }

  /** What `authenticate` returns after check_login_attempts. */
  datatype Authenticated<U> = Passed(user: U) | TooManyAttempts

  /** A stored transient: the counter and the time it expires. */
  datatype Transient = Transient(count: int, timeout: int)

  /** The transient name for an IP address. */
  function TransientKey(ip: string): string
  {
    "wpca_login_attempts_" + ip
  }

  /** get_transient on a store at time `now`: the counter while its timeout has not passed. */
  function AttemptsIn(t: map<string, Transient>, ip: string, now: int): (r: Option<int>)
    ensures r.Some? <==> TransientKey(ip) in t && t[TransientKey(ip)].timeout >= now
    ensures r.Some? ==> r.value == t[TransientKey(ip)].count
  {
    var k := TransientKey(ip);
    if k in t && t[k].timeout >= now then Some(t[k].count) else None
  }

  /** The store after a failure from `ip` at `now`, the counter living `lifetime` seconds. */
  function Logged(t: map<string, Transient>, ip: string, now: int, lifetime: int): map<string, Transient>
  {
    t[TransientKey(ip) := Transient(Incremented(AttemptsIn(t, ip, now)), now + lifetime)]
  }

  class LoginGuard {
    var transients: map<string, Transient>

    constructor(transients: map<string, Transient>)
      ensures this.transients == transients
    {
      this.transients := transients;
    }

    /** check_login_attempts: the incoming user, or the lockout error. */
    method CheckLoginAttempts<U>(user: U, ip: string, settings: Value, now: int) returns (r: Authenticated<U>)
      ensures r == TooManyAttempts <==> LockedOut(AttemptsIn(transients, ip, now), MaxAttempts(settings))
      ensures r != TooManyAttempts ==> r == Passed(user)
    {
      var max := MaxAttempts(settings);
      var attempts := AttemptsIn(transients, ip, now);
      if LockedOut(attempts, max) {
        return TooManyAttempts;
      }
      return Passed(user);
    }

    /** log_failed_login as written: the counter always lives for 300 seconds. */
    method LogFailedLoginAsWritten(ip: string, now: int)
      modifies this
      ensures transients == Logged(old(transients), ip, now, 300)
    {
      var attempts := AttemptsIn(transients, ip, now);
      transients := transients[TransientKey(ip) := Transient(Incremented(attempts), now + 300)];
    }

    /** log_failed_login with the configured lockout duration as the counter's lifetime. */
    method LogFailedLogin(ip: string, now: int, settings: Value)
      modifies this
      ensures transients == Logged(old(transients), ip, now, LockoutDuration(settings))
    {
      var attempts := AttemptsIn(transients, ip, now);
      transients := transients[TransientKey(ip) := Transient(Incremented(attempts), now + LockoutDuration(settings))];
    }
  }

  /** With the default maximum, a fifth recent failure locks out and a fourth does not; no counter never does. */
  lemma LockoutAfterFive(settings: Value)
    requires LoginField(settings, "max_login_attempts").None?
    ensures LockedOut(Some(5), MaxAttempts(settings)) && !LockedOut(Some(4), MaxAttempts(settings))
    ensures !LockedOut(None, MaxAttempts(settings))
  {
  }

  /** A missing counter locks out only when the maximum is 0. */
  lemma NoCounterLockedOut(max: int)
    ensures LockedOut(None, max) <==> max == 0
  {
  }

  /** A failure leaves other IPs' counters alone and makes this IP's counter readable, one higher, until it expires. */
  lemma LoggedCounter(t: map<string, Transient>, ip: string, other: string, now: int, lifetime: int, later: int)
    requires lifetime >= 0 && now <= later
    ensures AttemptsIn(Logged(t, ip, now, lifetime), ip, later).Some? <==> later <= now + lifetime
    ensures later <= now + lifetime ==> AttemptsIn(Logged(t, ip, now, lifetime), ip, later) == Some(Incremented(AttemptsIn(t, ip, now)))
    ensures other != ip ==> AttemptsIn(Logged(t, ip, now, lifetime), other, later) == AttemptsIn(t, other, later)
  {
    if other != ip {
      assert TransientKey(other) != TransientKey(ip) by {
        assert TransientKey(other)[20..] == other;
        assert TransientKey(ip)[20..] == ip;
      }
    }
  }

  /** n failures in quick succession, starting from no counter, leave the counter at n. */
  lemma {:induction false} FailuresCount(t: map<string, Transient>, ip: string, now: int, lifetime: int, n: nat)
    requires AttemptsIn(t, ip, now).None? && lifetime >= 0
    ensures AttemptsIn(Repeated(t, ip, now, lifetime, n), ip, now) == if n == 0 then None else Some(n)
  {
    if n > 0 {
      FailuresCount(t, ip, now, lifetime, n - 1);
      LoggedCounter(Repeated(t, ip, now, lifetime, n - 1), ip, ip, now, lifetime, now);
    }
  }

  /** The store after n failures from `ip`, all at `now`. */
  function Repeated(t: map<string, Transient>, ip: string, now: int, lifetime: int, n: nat): map<string, Transient>
  {
    if n == 0 then t else Logged(Repeated(t, ip, now, lifetime, n - 1), ip, now, lifetime)
  }

  /** As written, a configured lockout of 600 seconds still forgets the counter after 300. */
  lemma LockoutDurationIgnored(t: map<string, Transient>, settings: Value, ip: string, now: int)
    requires LoginField(settings, "lockout_duration") == Some(VInt(600))
    ensures AttemptsIn(Logged(t, ip, now, 300), ip, now + 301).None?
    ensures AttemptsIn(Logged(t, ip, now, LockoutDuration(settings)), ip, now + 301).Some?
  {
    LoggedCounter(t, ip, ip, now, 300, now + 301);
    LoggedCounter(t, ip, ip, now, LockoutDuration(settings), now + 301);
  }

  // ---------------------------------------------------------------------
  // Filters

  /** filter_login_header_url: the configured URL when it is set and non-empty. */
  function FilterLoginHeaderUrl(settings: Value, url: string, escUrl: string -> string): (r: string)
    ensures var f := LoginField(settings, "login_header_url");
      (f.Some? && Truthy(f.value) ==> r == escUrl(StrVal(f.value))) && (!(f.Some? && Truthy(f.value)) ==> r == url)
  {
    var f := LoginField(settings, "login_header_url");
    if f.Some? && Truthy(f.value) then escUrl(StrVal(f.value)) else url
  }

  /** filter_login_header_title: the configured title when it is set and non-empty. */
  function FilterLoginHeaderTitle(settings: Value, title: string, escHtml: string -> string): (r: string)
    ensures var f := LoginField(settings, "login_header_title");
      (f.Some? && Truthy(f.value) ==> r == escHtml(StrVal(f.value))) && (!(f.Some? && Truthy(f.value)) ==> r == title)
  {
    var f := LoginField(settings, "login_header_title");
    if f.Some? && Truthy(f.value) then escHtml(StrVal(f.value)) else title
  }

  /** filter_login_body_class: one class appended when one is configured. */
  function FilterLoginBodyClass(settings: Value, classes: seq<string>, sanitizeHtmlClass: string -> string): (r: seq<string>)
    ensures var f := LoginField(settings, "login_body_class");
      (f.Some? && Truthy(f.value) ==> r == classes + [sanitizeHtmlClass(StrVal(f.value))])
      && (!(f.Some? && Truthy(f.value)) ==> r == classes)
  {
    var f := LoginField(settings, "login_body_class");
    if f.Some? && Truthy(f.value) then classes + [sanitizeHtmlClass(StrVal(f.value))] else classes
  }

  /** The body-class filter adds at most one class and keeps the given ones in front. */
  lemma BodyClassPrefix(settings: Value, classes: seq<string>, sanitizeHtmlClass: string -> string)
    ensures var r := FilterLoginBodyClass(settings, classes, sanitizeHtmlClass);
      |classes| <= |r| <= |classes| + 1 && r[..|classes|] == classes
  {
  }
}
