/** Tokens of the calendar daemon, wmail/pcp/pcpdauthtoken.c: made with a secret that is replaced
    every so often, and good while the secret is the current or the previous one.  mac stands for
    the keyed hash; a time_t is an integer that is not negative and has at most 16 hex digits. */
module AuthToken {
  import opened Bytes
  import opened CStrings

  const LENGTH: nat := 16

  type Secret = s: seq<Byte> | |s| == LENGTH witness seq(LENGTH, i => 0)

  type Mac = (Secret, string) -> seq<Byte>

  // ----- hexadecimal

  function XDigit(n: nat): (c: char)
    requires n < 16
    ensures Nyb(c) == n
  {
    if n < 10 then ('0' as int + n) as char else ('A' as int + (n - 10)) as char
  }

  /** The value of a digit, or -1. */
  function Nyb(c: char): (n: int)
    ensures -1 <= n < 16
  {
    if '0' <= c <= '9' then c as int - '0' as int
    else if 'A' <= c <= 'F' then c as int - 'A' as int + 10
    else -1
  }

  function Pow16(w: nat): (p: nat)
    ensures p > 0
  {
    if w == 0 then 1 else 16 * Pow16(w - 1)
  }

  /** libmail_strh_time_t: the last w digits. */
  function Hex(t: nat, w: nat): (s: string)
    ensures |s| == w
    decreases w
  {
    if w == 0 then "" else Hex(t / 16, w - 1) + [XDigit(t % 16)]
  }

  function HexBytes(b: seq<Byte>): (s: string)
    ensures |s| == 2 * |b|
  {
    if b == [] then "" else [XDigit(b[0] / 16), XDigit(b[0] % 16)] + HexBytes(b[1..])
  }

  predicate AllHex(s: string) {
    forall k :: 0 <= k < |s| ==> Nyb(s[k]) >= 0
  }

  function Number(s: string): nat
    requires AllHex(s)
  {
    if s == "" then 0 else 16 * Number(s[..|s| - 1]) + Nyb(s[|s| - 1])
  }

  /** Where the digits at the start of s end. */
  function Digits(s: string): (n: nat)
    ensures n <= |s| && (forall k :: 0 <= k < n ==> Nyb(s[k]) >= 0) && (n == |s| || Nyb(s[n]) < 0)
  {
    if s != "" && Nyb(s[0]) >= 0 then
      Digits(s[1..]) + 1
    else 0
  }

  lemma {:induction false} HexNumber(t: nat, w: nat)
    requires t < Pow16(w)
    ensures AllHex(Hex(t, w)) && Number(Hex(t, w)) == t
    decreases w
  {
    if w > 0 {
      HexNumber(t / 16, w - 1);
      var s := Hex(t, w);
      assert s[..w - 1] == Hex(t / 16, w - 1);
    }
  }

  lemma {:induction false} DigitsAre(s: string, rest: string)
    requires AllHex(s) && (rest == "" || Nyb(rest[0]) < 0)
    ensures Digits(s + rest) == |s|
  {
    if s == "" {
      assert s + rest == rest;
    } else {
      assert (s + rest)[1..] == s[1..] + rest;
      assert Nyb(s[0]) >= 0;
      DigitsAre(s[1..], rest);
    }
  }

  lemma {:induction false} NumberBound(s: string)
    requires AllHex(s)
    ensures Number(s) < Pow16(|s|) && Hex(Number(s), |s|) == s
  {
    if s != "" {
      var front := s[..|s| - 1];
      NumberBound(front);
      Quotient(Number(front), Nyb(s[|s| - 1]));
      XDigitOf(s[|s| - 1]);
      assert s == front + [s[|s| - 1]];
    }
  }

  lemma Quotient(q: nat, r: nat)
    requires r < 16
    ensures (16 * q + r) / 16 == q && (16 * q + r) % 16 == r
  {}

  lemma XDigitOf(c: char)
    requires Nyb(c) >= 0
    ensures XDigit(Nyb(c)) == c
  {}

  // ----- the secrets

  datatype State = State(prev: Secret, cur: Secret, expire: int)

  /** authtoken_check, with the secret that newtoken would make. */
  function Check(s: State, now: int, made: Secret, timeout: nat): State {
    if now < s.expire && now >= s.expire - timeout * 4 then s
    else State(s.cur, made, now + timeout * 2)
  }

  // ----- the tokens

  const TIMEDIGITS: nat := 16

  /** mktoken. */
  function Make(mac: Mac, user: string, secret: Secret, t: nat): string {
    Hex(t, TIMEDIGITS) + "-" + HexBytes(mac(secret, user + Hex(t, TIMEDIGITS)))
  }

  /** The time in a token, if it has the form of one. */
  function TimeOf(token: string): Option<nat> {
    var n := Digits(token);
    if n < |token| && token[n] == '-' && n == TIMEDIGITS then Some(Number(token[..n])) else None
  }

  predicate InWindow(t: nat, now: int, timeout: nat) {
    now - timeout * 4 <= t <= now + 60
  }

  /** authtoken_verify: the time of a good token. */
  function Verify(mac: Mac, s: State, user: string, token: string, now: int, timeout: nat): Option<nat> {
    var t := TimeOf(token);
    if t.None? || !InWindow(t.value, now, timeout) then None
    else if Make(mac, user, s.cur, t.value) == token || Make(mac, user, s.prev, t.value) == token then t
    else None
  }

  lemma TimeOfMade(mac: Mac, user: string, secret: Secret, t: nat)
    requires t < Pow16(TIMEDIGITS)
    ensures TimeOf(Make(mac, user, secret, t)) == Some(t)
  {
    hide Hex, Pow16, Number, Digits, HexBytes;
    var s := Hex(t, TIMEDIGITS);
    var rest := "-" + HexBytes(mac(secret, user + s));
    HexNumber(t, TIMEDIGITS);
    DigitsAre(s, rest);
    assert Make(mac, user, secret, t) == s + rest;
    assert (s + rest)[..TIMEDIGITS] == s && (s + rest)[TIMEDIGITS] == '-';
  }

  lemma TimeBound(token: string)
    ensures TimeOf(token).Some? ==> TimeOf(token).value < Pow16(TIMEDIGITS)
  {
    hide Pow16, Number;
    if TimeOf(token).Some? {
      NumberBound(token[..Digits(token)]);
    }
  }

  /** A token is good exactly if it was made for the user, at a time within the window, with the
      current or the previous secret. */
  lemma VerifyExact(mac: Mac, s: State, user: string, token: string, now: int, timeout: nat, t: nat)
    ensures Verify(mac, s, user, token, now, timeout) == Some(t) <==>
            && t < Pow16(16) && now - 4 * timeout <= t <= now + 60
            && (token == Make(mac, user, s.cur, t) || token == Make(mac, user, s.prev, t))
  {
    hide TimeOf, Make, Pow16;
    TimeBound(token);
    if t < Pow16(TIMEDIGITS) {
      TimeOfMade(mac, user, s.cur, t);
      TimeOfMade(mac, user, s.prev, t);
    }
  }

  /** A token is bound to its user and its time: shown for another user it is good exactly if one of
      the two secrets gives that user and this time the same hash. */
  lemma BoundToUser(mac: Mac, s: State, user: string, other: string, t: nat, now: int, timeout: nat)
    requires t < Pow16(16) && now - 4 * timeout <= t <= now + 60
    ensures Verify(mac, s, other, Make(mac, user, s.cur, t), now, timeout).Some? <==>
            var hash := mac(s.cur, user + Hex(t, 16));
            mac(s.cur, other + Hex(t, 16)) == hash || mac(s.prev, other + Hex(t, 16)) == hash
  {
    hide Hex, Verify, Pow16;
    var token := Make(mac, user, s.cur, t);
    TimeOfMade(mac, user, s.cur, t);
    VerifyTimed(mac, s, other, token, now, timeout);
    VerifyExact(mac, s, other, token, now, timeout, t);
    SameToken(Hex(t, 16), mac(s.cur, other + Hex(t, 16)), mac(s.cur, user + Hex(t, 16)));
    SameToken(Hex(t, 16), mac(s.prev, other + Hex(t, 16)), mac(s.cur, user + Hex(t, 16)));
  }

  lemma VerifyTimed(mac: Mac, s: State, user: string, token: string, now: int, timeout: nat)
    ensures Verify(mac, s, user, token, now, timeout).Some? ==>
      Verify(mac, s, user, token, now, timeout) == TimeOf(token)
  {
    hide TimeOf, Make;
  }

  lemma SameToken(time: string, a: seq<Byte>, b: seq<Byte>)
    ensures time + "-" + HexBytes(a) == time + "-" + HexBytes(b) <==> a == b
  {
    hide HexBytes, AllHex, BytesOf;
    BytesBack(a);
    BytesBack(b);
    assert (time + "-" + HexBytes(a))[|time| + 1..] == HexBytes(a);
    assert (time + "-" + HexBytes(b))[|time| + 1..] == HexBytes(b);
  }

  lemma XDigitIs(n: nat)
    requires n < 16
    ensures XDigit(n) == "0123456789ABCDEF"[n]
  {}

  // ----- a run of the daemon

  /** One call of authtoken_check. */
  datatype Tick = Tick(now: int, made: Secret)

  function Run(s: State, ticks: seq<Tick>, timeout: nat): State
    decreases |ticks|
  {
    if ticks == [] then s else Run(Check(s, ticks[0].now, ticks[0].made, timeout), ticks[1..], timeout)
  }

  /** The clock never goes back. */
  predicate Ordered(ticks: seq<Tick>, start: int, end: int)
    decreases |ticks|
  {
    if ticks == [] then start <= end else start <= ticks[0].now && Ordered(ticks[1..], ticks[0].now, end)
  }

  lemma {:induction false} OrderedEnds(ticks: seq<Tick>, start: int, end: int)
    requires Ordered(ticks, start, end)
    ensures start <= end
  {
    if ticks != [] {
      OrderedEnds(ticks[1..], ticks[0].now, end);
    }
  }

  /** After a replacement the next is at least two timeouts away. */
  lemma {:induction false} NoneSoon(s: State, ticks: seq<Tick>, start: int, end: int, timeout: nat)
    requires Ordered(ticks, start, end) && s.expire - timeout * 4 <= start && end < s.expire
    ensures Run(s, ticks, timeout) == s
  {
    if ticks != [] {
      OrderedEnds(ticks[1..], ticks[0].now, end);
      NoneSoon(s, ticks[1..], ticks[0].now, end, timeout);
    }
  }

  /** In less than two timeouts the secret of the beginning becomes at most the previous one. */
  lemma {:induction false} SecretStays(s: State, ticks: seq<Tick>, start: int, end: int, timeout: nat)
    requires Ordered(ticks, start, end) && end < start + timeout * 2
    ensures s.cur == Run(s, ticks, timeout).cur || s.cur == Run(s, ticks, timeout).prev
  {
    if ticks != [] {
      var next := Check(s, ticks[0].now, ticks[0].made, timeout);
      OrderedEnds(ticks[1..], ticks[0].now, end);
      if next == s {
        SecretStays(s, ticks[1..], ticks[0].now, end, timeout);
      } else {
        NoneSoon(next, ticks[1..], ticks[0].now, end, timeout);
      }
    }
  }

  /** A token is good for less than two timeouts, whatever is replaced meanwhile. */
  lemma TokenLives(mac: Mac, s: State, user: string, t: nat, ticks: seq<Tick>, now: int, timeout: nat)
    requires t < Pow16(TIMEDIGITS) && Ordered(ticks, t, now) && now < t + timeout * 2
    ensures Verify(mac, Run(s, ticks, timeout), user, Make(mac, user, s.cur, t), now, timeout) == Some(t)
  {
    hide Run, Make, Verify, Pow16;
    SecretStays(s, ticks, t, now, timeout);
    OrderedEnds(ticks, t, now);
    VerifyExact(mac, Run(s, ticks, timeout), user, Make(mac, user, s.cur, t), now, timeout, t);
  }

  /** And not longer: if the secret had expired when the token was made, two replacements follow
      within two timeouts, and only a hash that is the same for both secrets would save it. */
  lemma NotLonger(mac: Mac, s: State, user: string, t: nat, a: Secret, b: Secret, timeout: nat)
    requires t < Pow16(TIMEDIGITS) && timeout >= 1 && s.expire <= t
    ensures var ticks := [Tick(t, a), Tick(t + timeout * 2, b)];
      var token := Make(mac, user, s.cur, t);
      && Ordered(ticks, t, t + timeout * 2) && Run(s, ticks, timeout) == State(a, b, t + timeout * 4)
      && (Verify(mac, Run(s, ticks, timeout), user, token, t + timeout * 2, timeout) == Some(t) <==>
          token == Make(mac, user, a, t) || token == Make(mac, user, b, t))
  {
    hide Make, Verify, Pow16, Run, Ordered;
    var tick1, tick2 := Tick(t, a), Tick(t + timeout * 2, b);
    var s1 := State(s.cur, a, t + timeout * 2);
    OrderedTwo(tick1, tick2);
    RunStep(s, tick1, [tick2], timeout);
    RunStep(s1, tick2, [], timeout);
    RunNothing(State(a, b, t + timeout * 4), timeout);
    assert [tick1] + [tick2] == [tick1, tick2] && [tick2] + [] == [tick2];
    VerifyExact(mac, State(a, b, t + timeout * 4), user, Make(mac, user, s.cur, t), t + timeout * 2, timeout, t);
  }

  lemma RunStep(s: State, tick: Tick, rest: seq<Tick>, timeout: nat)
    ensures Run(s, [tick] + rest, timeout) == Run(Check(s, tick.now, tick.made, timeout), rest, timeout)
  {
    assert ([tick] + rest)[1..] == rest;
  }

  lemma RunNothing(s: State, timeout: nat)
    ensures Run(s, [], timeout) == s
  {}

  lemma OrderedTwo(a: Tick, b: Tick)
    requires a.now <= b.now
    ensures Ordered([a, b], a.now, b.now)
  {
    assert [a, b][1..] == [b] && [b][1..] == [];
    assert Ordered([], b.now, b.now);
    assert Ordered([b], a.now, b.now);
  }

  // ----- a restart of the daemon

  /** The two lines of the file of secrets, and when it was written. */
  datatype Saved = Missing | Saved(line1: string, line2: string, mtime: int)

  predicate GoodToken(line: string) {
    |line| == 2 * LENGTH && AllHex(line)
  }

  function BytesOf(line: string): (b: seq<Byte>)
    requires AllHex(line) && |line| % 2 == 0
    ensures |b| == |line| / 2
  {
    if line == "" then [] else [16 * Nyb(line[0]) + Nyb(line[1])] + BytesOf(line[2..])
  }

  predicate Usable(saved: Saved, now: int, timeout: nat) {
    && saved.Saved? && GoodToken(saved.line1) && GoodToken(saved.line2)
    && saved.mtime < now + 60 && saved.mtime >= now - timeout * 2
  }

  /** authtoken_init, with the secrets that newtoken would make. */
  function Init(saved: Saved, now: int, a: Secret, b: Secret, timeout: nat): State {
    if Usable(saved, now, timeout)
    then State(BytesOf(saved.line1), BytesOf(saved.line2), saved.mtime + timeout * 2)
    else State(a, b, now + timeout * 2)
  }

  /** savetokens. */
  function Save(s: State, now: int): Saved {
    Saved(HexBytes(s.prev), HexBytes(s.cur), now)
  }

  lemma {:induction false} BytesBack(b: seq<Byte>)
    ensures AllHex(HexBytes(b)) && BytesOf(HexBytes(b)) == b
  {
    hide Nyb, XDigit, HexBytes, BytesOf, AllHex;
    if b == [] {
      NothingBack();
    } else {
      BytesBack(b[1..]);
      HexBytesFirst(b);
      PairBack(XDigit(b[0] / 16), XDigit(b[0] % 16), HexBytes(b[1..]));
    }
  }

  lemma NothingBack()
    ensures HexBytes([]) == "" && AllHex("") && BytesOf("") == []
  {}

  lemma HexBytesFirst(b: seq<Byte>)
    requires b != []
    ensures HexBytes(b) == [XDigit(b[0] / 16), XDigit(b[0] % 16)] + HexBytes(b[1..])
  {}

  lemma PairBack(c: char, d: char, rest: string)
    requires Nyb(c) >= 0 && Nyb(d) >= 0 && AllHex(rest) && |rest| % 2 == 0
    ensures AllHex([c, d] + rest) && |[c, d] + rest| % 2 == 0
    ensures BytesOf([c, d] + rest) == [16 * Nyb(c) + Nyb(d)] + BytesOf(rest)
  {
    hide Nyb;
    assert ([c, d] + rest)[2..] == rest;
  }

  /** The secrets are good for two timeouts from the time `since`. */
  predicate GoodFrom(s: State, since: int, timeout: nat) {
    s.expire == since + timeout * 2
  }

  /** Whatever savetokens is called for is such a state: an exchange of secrets, for whatever
      reason, or a start that finds no usable file. */
  lemma SavedGood(s: State, saved: Saved, now: int, made: Secret, a: Secret, b: Secret, timeout: nat)
    ensures Check(s, now, made, timeout) == s || GoodFrom(Check(s, now, made, timeout), now, timeout)
    ensures Usable(saved, now, timeout) || GoodFrom(Init(saved, now, a, b, timeout), now, timeout)
  {}

  /** A daemon that starts again before the secrets expire goes on where it was; one that starts
      later, or by a clock that is a minute slow, has two new secrets. */
  lemma Restart(s: State, since: int, now: int, a: Secret, b: Secret, timeout: nat)
    requires GoodFrom(s, since, timeout)
    ensures Init(Save(s, since), now, a, b, timeout) ==
      if since < now + 60 && now <= s.expire then s else State(a, b, now + timeout * 2)
  {
    BytesBack(s.prev);
    BytesBack(s.cur);
  }

  // ----- the program

  /** Writes the digits from the last to the first. */
  method StrHTime(t: nat) returns (s: string)
    ensures s == Hex(t, TIMEDIGITS)
  {
    var buf := new char[TIMEDIGITS];
    var p, rest := TIMEDIGITS, t;
    while p > 0
      invariant 0 <= p <= TIMEDIGITS && Hex(t, TIMEDIGITS) == Hex(rest, p) + buf[p..]
    {
      p := p - 1;
      ghost var tail := buf[p + 1..];
      buf[p] := XDigit(rest % 16);
      HexStep(rest, p + 1, tail);
      assert buf[p..] == [XDigit(rest % 16)] + tail;
      rest := rest / 16;
    }
    s := buf[..];
  }

  lemma HexStep(rest: nat, p: nat, tail: string)
    requires p > 0
    ensures Hex(rest, p) + tail == Hex(rest / 16, p - 1) + ([XDigit(rest % 16)] + tail)
  {}

  lemma HexBytesStep(done: string, b: seq<Byte>, i: nat)
    requires i < |b|
    ensures done + HexBytes(b[i..]) == done + [XDigit(b[i] / 16)] + [XDigit(b[i] % 16)] + HexBytes(b[i + 1..])
  {
    assert b[i..][1..] == b[i + 1..];
  }

  lemma HexNothing()
    ensures HexBytes([]) == ""
  {}

  method MkToken(mac: Mac, user: string, secret: Secret, now: nat) returns (token: string)
    ensures token == Make(mac, user, secret, now)
  {
    hide Hex, HexBytes;
    var nowS := StrHTime(now);
    var q := mac(secret, user + nowS);
    token := nowS + "-";
    var i: nat := 0;
    assert q[0..] == q;
    while i < |q|
      invariant i <= |q| && token + HexBytes(q[i..]) == nowS + "-" + HexBytes(q)
    {
      HexBytesStep(token, q, i);
      token := token + [XDigit(q[i] / 16)];
      token := token + [XDigit(q[i] % 16)];
      i := i + 1;
    }
    HexNothing();
    assert q[i..] == [] && token + "" == token;
  }

  /** The loop that reads the time of a token. */
  method ReadTime(token: string) returns (p: nat, tval: nat)
    ensures p == Digits(token) && tval == Number(token[..p])
  {
    hide Number, Digits, AllHex;
    p, tval := 0, 0;
    NumberNothing();
    assert token[..0] == "" && token[0..] == token;
    while p < |token| && Nyb(token[p]) >= 0
      invariant p <= |token| && AllHex(token[..p]) && tval == Number(token[..p])
      invariant Digits(token) == p + Digits(token[p..])
    {
      DigitsTurn(token, p);
      NumberSnoc(token[..p], token[p]);
      tval := tval * 16;
      tval := tval + Nyb(token[p]);
      p := p + 1;
    }
  }

  lemma DigitsTurn(token: string, p: nat)
    requires p < |token| && Nyb(token[p]) >= 0
    ensures Digits(token[p..]) == 1 + Digits(token[p + 1..]) && token[..p + 1] == token[..p] + [token[p]]
  {
    assert token[p..][1..] == token[p + 1..];
  }

  lemma NumberNothing()
    ensures AllHex("") && Number("") == 0
  {}

  lemma NumberSnoc(s: string, c: char)
    requires AllHex(s) && Nyb(c) >= 0
    ensures AllHex(s + [c]) && Number(s + [c]) == 16 * Number(s) + Nyb(c)
  {
    assert (s + [c])[..|s|] == s;
  }

  /** The static variables of the daemon. */
  class Tokens {
    const prevToken: array<Byte>
    const curToken: array<Byte>
    var expireTime: int
    const timeout: nat

    ghost predicate Valid()
      reads this, prevToken, curToken
    {
      prevToken.Length == LENGTH && curToken.Length == LENGTH && prevToken != curToken
    }

    ghost function Now(): State
      requires Valid()
      reads this, prevToken, curToken
    {
      State(prevToken[..], curToken[..], expireTime)
    }

    /** authtoken_init. */
    constructor (timeout: nat, saved: Saved, now: int, a: Secret, b: Secret)
      ensures Valid() && fresh(prevToken) && fresh(curToken) && this.timeout == timeout
      ensures Now() == Init(saved, now, a, b, timeout)
    {
      prevToken := new Byte[LENGTH];
      curToken := new Byte[LENGTH];
      this.timeout := timeout;
      expireTime := now + timeout * 2;
      new;
      if Usable(saved, now, timeout) {
        ReadSecret(prevToken, saved.line1);
        ReadSecret(curToken, saved.line2);
        expireTime := saved.mtime + timeout * 2;
      } else {
        MemCpy(prevToken, a);
        MemCpy(curToken, b);
      }
    }

    /** authtoken_check: how long until the next one is due. */
    method AuthtokenCheck(now: int, made: Secret) returns (left: int)
      requires Valid()
      modifies this`expireTime, prevToken, curToken
      ensures Valid() && Now() == Check(old(Now()), now, made, timeout)
      ensures left == Now().expire - now
    {
      if now < expireTime && now >= expireTime - timeout * 4 {
        return expireTime - now;
      }
      MemCpy(prevToken, curToken[..]);
      MemCpy(curToken, made);
      expireTime := now + timeout * 2;
      return timeout * 2;
    }

    /** authtoken_create. */
    method AuthtokenCreate(mac: Mac, user: string, now: nat) returns (token: string)
      requires Valid()
      ensures token == Make(mac, user, Now().cur, now)
    {
      token := MkToken(mac, user, curToken[..], now);
    }

    /** authtoken_verify. */
    method AuthtokenVerify(mac: Mac, user: string, token: string, now: int) returns (when: Option<nat>)
      requires Valid()
      ensures when == Verify(mac, Now(), user, token, now, timeout)
    {
      hide Number, Digits, Make;
      var p, tval := ReadTime(token);
      if p == |token| || token[p] != '-' || p != TIMEDIGITS {
        return None;
      }
      if tval < now - timeout * 4 || tval > now + 60 {
        return None;
      }
      var q := MkToken(mac, user, curToken[..], tval);
      if q == token {
        return Some(tval);
      }
      q := MkToken(mac, user, prevToken[..], tval);
      if q == token {
        return Some(tval);
      }
      return None;
    }

    /** authtoken_check, called any number of times. */
    method CheckAll(ticks: seq<Tick>)
      requires Valid()
      modifies this`expireTime, prevToken, curToken
      ensures Valid() && Now() == Run(old(Now()), ticks, timeout)
    {
      hide Check, Run;
      assert ticks[0..] == ticks;
      for k := 0 to |ticks|
        invariant Valid() && Run(Now(), ticks[k..], timeout) == Run(old(Now()), ticks, timeout)
      {
        assert ticks[k..] == [ticks[k]] + ticks[k + 1..];
        RunStep(Now(), ticks[k], ticks[k + 1..], timeout);
        var left := AuthtokenCheck(ticks[k].now, ticks[k].made);
      }
      RunNothing(Now(), timeout);
    }

    /** A daemon that makes a token, goes on for less than two timeouts, and is shown it again. */
    method ShownAgain(mac: Mac, user: string, t: nat, ticks: seq<Tick>, now: int) returns (when: Option<nat>)
      requires Valid() && t < Pow16(TIMEDIGITS) && Ordered(ticks, t, now) && now < t + timeout * 2
      modifies this`expireTime, prevToken, curToken
      ensures Valid() && when == Some(t)
    {
      hide Run, Make, Verify, Pow16, Ordered;
      TokenLives(mac, Now(), user, t, ticks, now, timeout);
      var token := AuthtokenCreate(mac, user, t);
      CheckAll(ticks);
      when := AuthtokenVerify(mac, user, token, now);
    }
  }

  method MemCpy(to: array<Byte>, from: Secret)
    requires to.Length == LENGTH
    modifies to
    ensures to[..] == from
  {
    forall k | 0 <= k < LENGTH {
      to[k] := from[k];
    }
  }

  lemma BytesStep(line: string, i: nat)
    requires AllHex(line) && |line| % 2 == 0 && 2 * i + 1 < |line|
    ensures AllHex(line[2 * i..]) && AllHex(line[2 * i + 2..])
    ensures BytesOf(line[2 * i..]) == [16 * Nyb(line[2 * i]) + Nyb(line[2 * i + 1])] + BytesOf(line[2 * i + 2..])
  {
    assert line[2 * i..][2..] == line[2 * i + 2..];
  }

  /** goodtoken, for a line that is good. */
  method ReadSecret(to: array<Byte>, line: string)
    requires to.Length == LENGTH && GoodToken(line)
    modifies to
    ensures to[..] == BytesOf(line)
  {
    hide BytesOf;
    var i: nat := 0;
    assert line[0..] == line;
    while i < LENGTH
      invariant i <= LENGTH && AllHex(line[2 * i..]) && to[..i] + BytesOf(line[2 * i..]) == BytesOf(line)
    {
      BytesStep(line, i);
      ghost var done := to[..i];
      to[i] := Nyb(line[2 * i]) * 16 + Nyb(line[2 * i + 1]);
      assert to[..i + 1] == done + [16 * Nyb(line[2 * i]) + Nyb(line[2 * i + 1])];
      i := i + 1;
    }
    assert to[..i] == to[..] && line[2 * i..] == "";
  }
}
