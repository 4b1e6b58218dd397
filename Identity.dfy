/**
 * The rendezvous server's helpers that identify a connecting client
 * (`modules/server/src/index.ts`): its address, its peer id from the
 * `peerid` cookie, the cookie the handshake sets, the random id it
 * generates, and the 32-bit string hash that seeds its display name.
 */
module Identity {
  import opened Base

  // ---------------------------------------------------------------------
  // Substrings
  // ---------------------------------------------------------------------

  predicate OccursAt(s: string, pat: string, i: nat)
  {
    i + |pat| <= |s| && s[i..i + |pat|] == pat
  }

  /** `s.indexOf(pat)`: the first position where `pat` occurs, if any. */
  function IndexOf(s: string, pat: string, from: nat := 0): (r: Option<nat>)
    requires from <= |s| + 1
    ensures r.Some? ==> from <= r.value && OccursAt(s, pat, r.value)
    ensures forall j :: from <= j && (r.None? || j < r.value) ==> !OccursAt(s, pat, j)
    decreases |s| + 1 - from
  {
    if from + |pat| > |s| then None
    else if s[from..from + |pat|] == pat then Some(from)
    else IndexOf(s, pat, from + 1)
  }

  /** `s.includes(pat)` */
  predicate Includes(s: string, pat: string)
  {
    IndexOf(s, pat).Some?
  }

  lemma IncludesIff(s: string, pat: string)
    ensures Includes(s, pat) <==> exists i :: OccursAt(s, pat, i)
  {
  }

  /** `s.replace(pat, "")` with a string pattern: only the first occurrence goes. */
  function RemoveFirst(s: string, pat: string): (r: string)
    ensures !Includes(s, pat) ==> r == s
    ensures Includes(s, pat) ==> |r| == |s| - |pat|
    ensures Includes(s, pat) ==> var i := IndexOf(s, pat).value; r == s[..i] + s[i + |pat|..]
  {
    match IndexOf(s, pat)
    case None => s
    case Some(i) => s[..i] + s[i + |pat|..]
  }

  /**
   * Removing a pattern that does not occur before a given occurrence cuts
   * out that occurrence and keeps the text on both sides.
   */
  lemma RemoveFirstAt(a: string, pat: string, b: string)
    requires forall j :: 0 <= j < |a| ==> !OccursAt(a + pat + b, pat, j)
    ensures IndexOf(a + pat + b, pat) == Some(|a|)
    ensures RemoveFirst(a + pat + b, pat) == a + b
  {
    var s := a + pat + b;
    assert s[|a|..|a| + |pat|] == pat;
    assert OccursAt(s, pat, |a|);
    var r := IndexOf(s, pat);
    assert r.Some? && r.value == |a|;
    assert s[..|a|] == a && s[|a| + |pat|..] == b;
  }

  // ---------------------------------------------------------------------
  // The client's address
  // ---------------------------------------------------------------------

  /** A character the regular expression class `\s` matches. */
  predicate IsSpace(c: char)
  {
    || c == ' ' || c == '\t' || c == '\n' || c == '\r' || c == '\U{000B}' || c == '\U{000C}'
    || c == '\U{00A0}' || c == '\U{1680}' || ('\U{2000}' <= c <= '\U{200A}')
    || c == '\U{2028}' || c == '\U{2029}' || c == '\U{202F}' || c == '\U{205F}'
    || c == '\U{3000}' || c == '\U{FEFF}'
  }

  function TrimEnd(s: string): (r: string)
    ensures |r| <= |s| && r == s[..|r|]
    ensures forall i :: |r| <= i < |s| ==> IsSpace(s[i])
    ensures r == [] || !IsSpace(r[|r| - 1])
  {
    if s != [] && IsSpace(s[|s| - 1]) then TrimEnd(s[..|s| - 1]) else s
  }

  /**
   * `s.split(/\s*,\s*\/)[0]`: the separator's first match begins where the
   * run of white space before the first comma begins, so the first piece
   * is the text before the first comma without its trailing white space;
   * white space at its start stays. Without a comma it is all of `s`.
   */
  function FirstListEntry(s: string): (r: string)
    ensures !Includes(s, ",") ==> r == s
    ensures Includes(s, ",") ==> r == TrimEnd(s[..IndexOf(s, ",").value])
  {
    match IndexOf(s, ",")
    case None => s
    case Some(c) => TrimEnd(s[..c])
  }

  /** What `_extractIP` and `_extractPeerId` read of the upgrade request. */
  datatype Request = Request(
    forwardedFor: Option<string>,
    remoteAddress: Option<string>,
    cookie: Option<string>,
    url: Option<string>,
    peerId: Option<string>)

  /** JavaScript truthiness of an optional string. */
  predicate Present(v: Option<string>)
  {
    v.Some? && v.value != []
  }

  const Loopback := "127.0.0.1"

  /**
   * `_extractIP(request)`: the first `x-forwarded-for` entry when that
   * header is non-empty, else the socket's address, else "unknown"; both
   * IPv6 spellings of the loopback address become "127.0.0.1".
   */
  function ExtractIP(request: Request): (ip: string)
  {
    var raw := if Present(request.forwardedFor) then FirstListEntry(request.forwardedFor.value)
               else if Present(request.remoteAddress) then request.remoteAddress.value
               else "unknown";
    if raw == "::1" || raw == "::ffff:127.0.0.1" then Loopback else raw
  }

  lemma ExtractIPCases(request: Request)
    ensures !Present(request.forwardedFor) && !Present(request.remoteAddress) ==> ExtractIP(request) == "unknown"
    ensures !Present(request.forwardedFor) && request.remoteAddress in {Some("::1"), Some("::ffff:127.0.0.1")}
            ==> ExtractIP(request) == Loopback
    ensures Present(request.forwardedFor) && !Includes(request.forwardedFor.value, ",")
            && request.forwardedFor.value !in {"::1", "::ffff:127.0.0.1"}
            ==> ExtractIP(request) == request.forwardedFor.value
    ensures !Present(request.forwardedFor) && Present(request.remoteAddress)
            && request.remoteAddress.value !in {"::1", "::ffff:127.0.0.1"}
            ==> ExtractIP(request) == request.remoteAddress.value
    ensures Present(request.forwardedFor) ==>
            var first := FirstListEntry(request.forwardedFor.value);
            ExtractIP(request) == (if first in {"::1", "::ffff:127.0.0.1"} then Loopback else first)
    ensures ExtractIP(request) != "::1" && ExtractIP(request) != "::ffff:127.0.0.1"
  {
  }

  /**
   * A forwarded list's first address, with white space before the comma:
   * `"203.0.113.7 , 10.0.0.1"` gives `"203.0.113.7"`.
   */
  lemma ForwardedListFirst(first: string, rest: string, gap: string)
    requires !Includes(first, ",") && (first == [] || !IsSpace(first[|first| - 1]))
    requires forall i :: 0 <= i < |gap| ==> IsSpace(gap[i])
    ensures FirstListEntry(first + gap + "," + rest) == first
  {
    var s := first + gap + "," + rest;
    var c := |first| + |gap|;
    assert OccursAt(s, ",", c);
    forall j: nat | j < c ensures !OccursAt(s, ",", j) {
      if j < |first| {
        assert !OccursAt(first, ",", j);
        assert s[j..j + 1] == first[j..j + 1];
      } else {
        assert s[j] == gap[j - |first|];
        assert s[j..j + 1][0] == s[j];
      }
    }
    assert IndexOf(s, ",") == Some(c);
    TrimGap(first, gap);
    assert s[..c] == first + gap;
  }

  lemma {:induction false} TrimGap(first: string, gap: string)
    requires first == [] || !IsSpace(first[|first| - 1])
    requires forall i :: 0 <= i < |gap| ==> IsSpace(gap[i])
    ensures TrimEnd(first + gap) == first
  {
    if gap == [] {
      assert first + gap == first;
    } else {
      var g := gap[..|gap| - 1];
      TrimGap(first, g);
      assert (first + gap)[..|first + gap| - 1] == first + g;
    }
  }

  // ---------------------------------------------------------------------
  // Peer ids and the handshake cookie
  // ---------------------------------------------------------------------

  const CookieKey := "peerid="

  /**
   * `_extractPeerId(request)`: the id the handshake attached, if any;
   * otherwise the cookie header with its first "peerid=" removed.
   */
  function ExtractPeerId(request: Request): (id: string)
    ensures Present(request.peerId) ==> id == request.peerId.value
    ensures !Present(request.peerId) && request.cookie.None? ==> id == []
    ensures !Present(request.peerId) && request.cookie.Some? ==> id == RemoveFirst(request.cookie.value, CookieKey)
  {
    if Present(request.peerId) then request.peerId.value
    else RemoveFirst(if request.cookie.Some? then request.cookie.value else "", CookieKey)
  }

  /** A cookie header of exactly `peerid=X` gives X. */
  lemma ExtractPeerIdOfCookie(request: Request, x: string)
    requires !Present(request.peerId) && request.cookie == Some(CookieKey + x)
    ensures ExtractPeerId(request) == x
  {
    assert OccursAt(CookieKey + x, CookieKey, 0);
  }

  /**
   * The removal is not a cookie parser: whatever stands before the first
   * "peerid=" (other cookies, say) stays in the id, and so does whatever
   * follows the value.
   */
  lemma ExtractPeerIdOfCookies(request: Request, before: string, after: string)
    requires !Present(request.peerId) && request.cookie == Some(before + CookieKey + after)
    requires forall j :: 0 <= j < |before| ==> !OccursAt(before + CookieKey + after, CookieKey, j)
    ensures ExtractPeerId(request) == before + after
  {
    RemoveFirstAt(before, CookieKey, after);
  }

  /** "theme=dark; peerid=abc" gives the id "theme=dark; abc". */
  lemma ExtractPeerIdOfTwoCookies()
    ensures ExtractPeerId(Request(None, None, Some("theme=dark; peerid=abc"), None, None)) == "theme=dark; abc"
  {
    var before, after := "theme=dark; ", "abc";
    var s := before + CookieKey + after;
    forall j | 0 <= j < |before| ensures !OccursAt(s, CookieKey, j) {
      assert s[j] != 'p';
      assert j + |CookieKey| <= |s| ==> s[j..j + |CookieKey|][0] == s[j];
    }
    assert s == "theme=dark; peerid=abc";
    ExtractPeerIdOfCookies(Request(None, None, Some(s), None, None), before, after);
    assert before + after == "theme=dark; abc";
  }

  /** The upgrade response's header lines and the request after `_onHeaders`. */
  datatype Handshake = Handshake(headers: seq<string>, request: Request)

  function SetCookieLine(id: string): string
  {
    "Set-Cookie: peerid=" + id + "; SameSite=Strict; Secure"
  }

  /**
   * `_onHeaders(headers, request)` with `minted` the id `Peer.uuid()`
   * returns: a request whose cookie already holds "peerid=" is left alone;
   * otherwise the minted id is attached to it and a Set-Cookie line added.
   */
  function OnHeaders(headers: seq<string>, request: Request, minted: string): (r: Handshake)
    ensures request.cookie.Some? && Includes(request.cookie.value, CookieKey) ==> r == Handshake(headers, request)
    ensures !(request.cookie.Some? && Includes(request.cookie.value, CookieKey)) ==>
      r.headers == headers + [SetCookieLine(minted)] && r.request == request.(peerId := Some(minted))
  {
    if request.cookie.Some? && Includes(request.cookie.value, CookieKey) then Handshake(headers, request)
    else Handshake(headers + [SetCookieLine(minted)], request.(peerId := Some(minted)))
  }

  /**
   * A client without the cookie gets the minted id at once, and the cookie
   * it is told to store, sent back alone, gives the same id again.
   */
  lemma CookieRoundTrip(headers: seq<string>, request: Request, minted: string)
    requires minted != []
    requires !(request.cookie.Some? && Includes(request.cookie.value, CookieKey))
    ensures ExtractPeerId(OnHeaders(headers, request, minted).request) == minted
    ensures ExtractPeerId(Request(None, None, Some(CookieKey + minted), None, None)) == minted
  {
    ExtractPeerIdOfCookie(Request(None, None, Some(CookieKey + minted), None, None), minted);
  }

  /** `request.url?.includes("webrtc") || false` */
  function RtcSupported(request: Request): (r: bool)
    ensures r <==> request.url.Some? && Includes(request.url.value, "webrtc")
  {
    request.url.Some? && Includes(request.url.value, "webrtc")
  }

  // ---------------------------------------------------------------------
  // String.prototype.hashCode
  // ---------------------------------------------------------------------

  /** A UTF-16 code unit, what `charCodeAt` returns. */
  newtype codeUnit = x: int | 0 <= x < 0x1_0000

  const TwoTo31 := 0x8000_0000
  const TwoTo32 := 0x1_0000_0000

  /** ToInt32: the 32-bit two's-complement integer congruent to x. */
  function Wrap32(x: int): (r: int)
    ensures -TwoTo31 <= r < TwoTo31
    ensures -TwoTo31 <= x < TwoTo31 ==> r == x
    ensures (x - r) % TwoTo32 == 0
  {
    var y := x + TwoTo31;
    assert x - (y % TwoTo32 - TwoTo31) == (y / TwoTo32) * TwoTo32;
    y % TwoTo32 - TwoTo31
  }

  lemma ModStep(y: int)
    ensures (y + TwoTo32) % TwoTo32 == y % TwoTo32
  {
  }

  lemma {:induction false} ModShift(y: int, q: int)
    ensures (y + q * TwoTo32) % TwoTo32 == y % TwoTo32
    decreases if q < 0 then -q else q
  {
    if q > 0 {
      ModShift(y, q - 1);
      ModStep(y + (q - 1) * TwoTo32);
    } else if q < 0 {
      ModShift(y, q + 1);
      ModStep(y + q * TwoTo32);
    }
  }

  /** The hash as the loop defines it: h := ToInt32(31 h + c) from 0. */
  function Hash(s: seq<codeUnit>): (h: int)
    ensures -TwoTo31 <= h < TwoTo31
    ensures s == [] ==> h == 0
  {
    if s == [] then 0 else Wrap32(31 * Hash(s[..|s| - 1]) + s[|s| - 1] as int)
  }

  /** `(hash << 5) - hash + chr`, then `hash |= 0`: the shift already wraps. */
  lemma ShiftStep(h: int, c: int)
    requires -TwoTo31 <= h < TwoTo31
    ensures Wrap32(Wrap32(h * 32) - h + c) == Wrap32(31 * h + c)
  {
    var a := h * 32 + TwoTo31;
    var q := a / TwoTo32;
    assert a == q * TwoTo32 + a % TwoTo32;
    var y := a % TwoTo32 - h + c;
    assert Wrap32(h * 32) - h + c + TwoTo31 == y;
    assert 31 * h + c + TwoTo31 == y + q * TwoTo32;
    ModShift(y, q);
  }

  /** `s.hashCode()` */
  method HashCode(s: seq<codeUnit>) returns (hash: int)
    ensures hash == Hash(s)
    ensures -TwoTo31 <= hash < TwoTo31
  {
    hash := 0;
    for i := 0 to |s|
      invariant hash == Hash(s[..i])
    {
      var chr := s[i] as int;
      ShiftStep(hash, chr);
      assert s[..i + 1][..i] == s[..i];
      hash := Wrap32(Wrap32(hash * 32) - hash + chr);
    }
    assert s[..|s|] == s;
  }

  /** Hashing one more code unit: 31 times the hash so far plus the unit, wrapped. */
  lemma HashSnoc(s: seq<codeUnit>, c: codeUnit)
    ensures Hash(s + [c]) == Wrap32(31 * Hash(s) + c as int)
  {
    assert (s + [c])[..|s|] == s;
  }

  /** Strings short enough never wrap: "ab" hashes to 31 * 97 + 98. */
  lemma HashExample()
    ensures Hash([97 as codeUnit, 98 as codeUnit]) == 3105
  {
    assert [97 as codeUnit, 98 as codeUnit][..1] == [97 as codeUnit];
    assert [97 as codeUnit][..0] == [];
  }
}
