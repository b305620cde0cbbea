/**
 * Bearer-credential extraction for a streaming connection (the gateway's `extractTokenFromSocket`).
 * The credential may come from three carriers, tried in a fixed order: the `token` field of the
 * handshake's `auth` object, the `Authorization` header with `Bearer ` removed, and the value of
 * the `access_token` cookie. JavaScript's `||` picks the first carrier whose value is a non-empty
 * string, so an empty value falls through to the next carrier.
 */
module TokenExtraction {
  import opened Wrappers
  import opened Text

  /** What a socket handshake offers: `auth.token`, the `Authorization` header and the `Cookie` header. */
  datatype Handshake = Handshake(authToken: Option<string>, authorization: Option<string>, cookie: Option<string>)

  const BearerPrefix: string := "Bearer "
  const AccessCookiePrefix: string := "access_token="

  /** JavaScript truthiness of a `string | undefined`: present and not the empty string. */
  predicate Truthy(v: Option<string>) {
    v.Some? && v.value != ""
  }

  /** JavaScript's `a || b` on two `string | undefined` values. */
  function Or(a: Option<string>, b: Option<string>): (r: Option<string>)
    ensures Truthy(r) <==> Truthy(a) || Truthy(b)
    ensures Truthy(a) ==> r == a
    ensures !Truthy(a) ==> r == b
  {
    if Truthy(a) then a else b
  }

  /** `headers.authorization?.replace('Bearer ', '')`: the first `Bearer ` is dropped, wherever it stands. */
  function HeaderToken(authorization: Option<string>): (r: Option<string>)
    ensures r.Some? <==> authorization.Some?
    ensures authorization.Some? && IndexOf(authorization.value, BearerPrefix).None? ==> r == authorization
    ensures r.Some? ==> |r.value| == |authorization.value| - (if IndexOf(authorization.value, BearerPrefix).Some? then |BearerPrefix| else 0)
  {
    match authorization
    case None => None
    case Some(h) => Some(ReplaceFirst(h, BearerPrefix, ""))
  }

  /** The cookie-list element the extraction looks for: once trimmed, it begins with `access_token=`. */
  predicate IsAccessCookie(part: string) {
    StartsWith(Trim(part), AccessCookiePrefix)
  }

  /** `parts.find(c => c.trim().startsWith('access_token='))` from index `from` on, as the index found. */
  function FindAccessCookie(parts: seq<string>, from: nat): (r: Option<nat>)
    requires from <= |parts|
    decreases |parts| - from
    ensures r.Some? ==> from <= r.value < |parts| && IsAccessCookie(parts[r.value])
    ensures r.Some? ==> forall j {:trigger IsAccessCookie(parts[j])} :: from <= j < r.value ==> !IsAccessCookie(parts[j])
    ensures r.None? ==> forall j {:trigger IsAccessCookie(parts[j])} :: from <= j < |parts| ==> !IsAccessCookie(parts[j])
  {
    if from == |parts| then None
    else if IsAccessCookie(parts[from]) then Some(from)
    else FindAccessCookie(parts, from + 1)
  }

  /** An access cookie contains `=`, so splitting it on `=` gives at least two pieces. */
  lemma AccessCookieHasValue(part: string)
    requires IsAccessCookie(part)
    ensures |Split(part, '=')| >= 2
  {
    assert Trim(part)[12] == '=';
    SplitHasTwoParts(part, '=');
  }

  /**
   * `cookie?.split(';').find(...)?.split('=')[1]?.trim()`. The value is taken from the element as
   * found, before trimming, and is only the text between its first and its second `=`.
   */
  function CookieToken(cookie: Option<string>): Option<string> {
    match cookie
    case None => None
    case Some(header) =>
      var parts := Split(header, ';');
      match FindAccessCookie(parts, 0)
      case None => None
      case Some(i) =>
        AccessCookieHasValue(parts[i]);
        Some(Trim(Split(parts[i], '=')[1]))
  }

  /** The cookie header yields a value exactly when one of its `;`-elements is the access cookie. */
  lemma CookieTokenIffAccessCookie(header: string)
    ensures CookieToken(Some(header)).Some? <==>
      exists i :: 0 <= i < |Split(header, ';')| && IsAccessCookie(Split(header, ';')[i])
  {
    var parts := Split(header, ';');
    var found := FindAccessCookie(parts, 0);
    assert CookieToken(Some(header)).Some? <==> found.Some?;
    if found.Some? {
      assert IsAccessCookie(parts[found.value]);
    }
  }

  /**
   * `authToken || headerToken || cookieToken || null`: the first carrier with a non-empty value,
   * in priority order, or `None` when every carrier is missing or empty.
   */
  function ExtractToken(h: Handshake): (r: Option<string>)
    ensures r.Some? ==> r.value != ""
    ensures Truthy(h.authToken) ==> r == h.authToken
    ensures !Truthy(h.authToken) && Truthy(HeaderToken(h.authorization)) ==> r == HeaderToken(h.authorization)
    ensures !Truthy(h.authToken) && !Truthy(HeaderToken(h.authorization)) && Truthy(CookieToken(h.cookie)) ==>
      r == CookieToken(h.cookie)
    ensures r.None? <==>
      !Truthy(h.authToken) && !Truthy(HeaderToken(h.authorization)) && !Truthy(CookieToken(h.cookie))
  {
    var t := Or(Or(h.authToken, HeaderToken(h.authorization)), CookieToken(h.cookie));
    if Truthy(t) then t else None
  }

  /** `Authorization: Bearer <t>` yields `t`. */
  lemma BearerHeaderYieldsToken(t: string)
    ensures HeaderToken(Some(BearerPrefix + t)) == Some(t)
  {
    var s := BearerPrefix + t;
    assert OccursAt(s, BearerPrefix, 0);
    assert IndexOf(s, BearerPrefix) == Some(0);
    assert s[|BearerPrefix|..] == t;
  }

  /**
   * The replacement is not anchored at the start: an `Authorization` value `a + "Bearer " + b` in
   * which `a` contains no `Bearer ` yields `a + b`.
   */
  lemma BearerRemovedWherever(a: string, b: string)
    requires IndexOf(a + BearerPrefix, BearerPrefix) == Some(|a|)
    ensures HeaderToken(Some(a + BearerPrefix + b)) == Some(a + b)
  {
    var s := a + BearerPrefix + b;
    var i := |a|;
    assert s[..i + |BearerPrefix|] == a + BearerPrefix;
    assert OccursAt(s, BearerPrefix, i);
    forall j: nat | j < i ensures !OccursAt(s, BearerPrefix, j) {
      assert !OccursAt(a + BearerPrefix, BearerPrefix, j);
      assert s[j..j + |BearerPrefix|] == (a + BearerPrefix)[j..j + |BearerPrefix|];
    }
    assert IndexOf(s, BearerPrefix) == Some(i);
    assert s[..i] == a && s[i + |BearerPrefix|..] == b;
  }

  /** Whatever follows it, a cookie element that begins with `access_token=` is the access cookie. */
  lemma AccessPrefixMakesAccessCookie(x: string)
    ensures IsAccessCookie(AccessCookiePrefix + x)
  {
    var part := AccessCookiePrefix + x;
    var t := Trim(part);
    var i := TrimIsSlice(part);
    assert part[0] == 'a' && part[12] == '=';
    assert i == 0;
    assert |t| >= 13;
    assert t[..13] == part[..13] == AccessCookiePrefix;
  }

  /** A `Cookie` header made of the access cookie alone yields the text between its first two `=`, trimmed. */
  lemma SingleAccessCookie(part: string)
    requires ';' !in part && IsAccessCookie(part) && |Split(part, '=')| >= 2
    ensures CookieToken(Some(part)) == Some(Trim(Split(part, '=')[1]))
  {
    SplitWithoutSeparator(part, ';');
    assert FindAccessCookie([part], 0) == Some(0);
  }

  /** Splitting an access cookie on `=` first cuts off the name `access_token`. */
  lemma AccessCookiePieces(value: string)
    ensures Split(AccessCookiePrefix + value, '=') == ["access_token"] + Split(value, '=')
  {
    assert AccessCookiePrefix + value == "access_token" + ['='] + value;
    SplitAtFirstSeparator("access_token", '=', value);
  }

  /** A `Cookie` header that is one access cookie yields the first piece of its value, trimmed. */
  lemma AccessCookieValue(value: string)
    requires ';' !in value
    ensures CookieToken(Some(AccessCookiePrefix + value)) == Some(Trim(Split(value, '=')[0]))
  {
    var part := AccessCookiePrefix + value;
    assert ';' !in part by {
      assert ';' !in AccessCookiePrefix;
    }
    AccessPrefixMakesAccessCookie(value);
    AccessCookieHasValue(part);
    SingleAccessCookie(part);
    AccessCookiePieces(value);
  }

  /** A `Cookie` header that is just `access_token=<t>` yields `t`, when `t` is a plain value. */
  lemma AccessCookieYieldsToken(t: string)
    requires ';' !in t && '=' !in t && Trim(t) == t
    ensures CookieToken(Some(AccessCookiePrefix + t)) == Some(t)
  {
    AccessCookieValue(t);
    SplitWithoutSeparator(t, '=');
  }

  /**
   * Cookie elements before the access cookie are skipped: `p;rest` yields what `rest` yields when
   * `p` is not the access cookie.
   */
  lemma OtherCookieSkipped(p: string, rest: string)
    requires ';' !in p && !IsAccessCookie(p)
    ensures CookieToken(Some(p + ";" + rest)) == CookieToken(Some(rest))
  {
    SplitAtFirstSeparator(p, ';', rest);
    var parts := Split(p + ";" + rest, ';');
    var tail := Split(rest, ';');
    assert parts == [p] + tail;
    assert FindAccessCookie(parts, 0) == FindAccessCookie(parts, 1);
    FindAccessCookieShift(p, tail, 0);
  }

  /** Finding in `[p] + tail` past a `p` that does not qualify is finding in `tail`, one index further on. */
  lemma {:induction false} FindAccessCookieShift(p: string, tail: seq<string>, from: nat)
    requires from <= |tail| && !IsAccessCookie(p)
    decreases |tail| - from
    ensures FindAccessCookie([p] + tail, from + 1) ==
      match FindAccessCookie(tail, from) case None => None case Some(i) => Some(i + 1)
  {
    var parts := [p] + tail;
    if from < |tail| {
      assert parts[from + 1] == tail[from];
      if !IsAccessCookie(tail[from]) {
        FindAccessCookieShift(p, tail, from + 1);
      }
    }
  }

  /**
   * A cookie value that itself contains `=` is cut at that `=`: `access_token=a=b` yields only
   * `a`, trimmed.
   */
  lemma AccessCookieCutAtEquals(a: string, b: string)
    requires ';' !in a && ';' !in b && '=' !in a
    ensures CookieToken(Some(AccessCookiePrefix + a + "=" + b)) == Some(Trim(a))
  {
    var value := a + ['='] + b;
    assert AccessCookiePrefix + a + "=" + b == AccessCookiePrefix + value;
    assert ';' !in value;
    AccessCookieValue(value);
    SplitAtFirstSeparator(a, '=', b);
  }
}
