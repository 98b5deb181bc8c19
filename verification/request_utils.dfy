/** The request helpers of the store: the client address behind a proxy,
    the readable message drawn from an error payload, and the cache keys of
    the three rate limits. */
module RequestUtils {
  import opened Wrappers
  import opened Text

  // ---------------- the client address ----------------

  /** `ip` is `h[i..j]`, the first comma-separated entry of the header
      `h` (which ends at `k`) without the whitespace around it. */
  predicate FirstEntryAt(h: string, ip: string, i: int, j: int, k: int) {
    && 0 <= i <= j <= k <= |h| && ip == h[i..j]
    && (k == |h| || h[k] == ',')
    && (forall m :: 0 <= m < k ==> h[m] != ',')
    && (forall m :: 0 <= m < i ==> IsSpace(h[m]))
    && (forall m :: j <= m < k ==> IsSpace(h[m]))
    && (ip == [] || (!IsSpace(ip[0]) && !IsSpace(ip[|ip| - 1])))
  }

  /** `ip` is the first entry of `h`, trimmed. */
  ghost predicate FirstEntryIs(h: string, ip: string) {
    exists i, j, k :: FirstEntryAt(h, ip, i, j, k)
  }

  /** `get_client_ip`: a non-empty `X-Forwarded-For` header gives its first
      entry, trimmed; otherwise `REMOTE_ADDR`, or "unknown" when that is
      missing too (an empty `REMOTE_ADDR` is returned as it is). */
  function ClientIp(forwardedFor: Option<string>, remoteAddr: Option<string>): (ip: string)
    ensures forwardedFor.Some? && forwardedFor.value != [] ==> FirstEntryIs(forwardedFor.value, ip) && ',' !in ip
    ensures (forwardedFor.None? || forwardedFor.value == []) && remoteAddr.Some? ==> ip == remoteAddr.value
    ensures (forwardedFor.None? || forwardedFor.value == []) && remoteAddr.None? ==> ip == "unknown"
  {
    if forwardedFor.Some? && forwardedFor.value != [] then
      var h := forwardedFor.value;
      var f := FirstField(h, ',');
      var ip := Strip(f);
      FirstEntryWitness(h, f, ip);
      ip
    else remoteAddr.GetOr("unknown")
  }

  lemma FirstEntryWitness(h: string, f: string, ip: string)
    requires f == FirstField(h, ',') && ip == Strip(f)
    ensures FirstEntryIs(h, ip) && ',' !in ip
  {
    var i := StripStart(f);
    FirstEntryFromParts(h, f, ip, i);
  }

  /** What `FirstField` and `Strip` promise is enough to place the entry. */
  lemma FirstEntryFromParts(h: string, f: string, ip: string, i: int)
    requires |f| <= |h| && f == h[..|f|] && ',' !in f && (|f| < |h| ==> h[|f|] == ',')
    requires 0 <= i <= |f| - |ip| && ip == f[i..i + |ip|]
    requires forall m :: 0 <= m < i ==> IsSpace(f[m])
    requires forall m :: i + |ip| <= m < |f| ==> IsSpace(f[m])
    requires ip == [] || (!IsSpace(ip[0]) && !IsSpace(ip[|ip| - 1]))
    ensures FirstEntryAt(h, ip, i, i + |ip|, |f|) && ',' !in ip
  {
    forall m | 0 <= m < |f| ensures h[m] == f[m] && h[m] != ',' {
      assert f[m] in f;
    }
    forall m | 0 <= m < |ip| ensures ip[m] != ',' {
      assert ip[m] == f[i + m];
      assert f[i + m] in f;
    }
  }

  /** The address is the header's first entry, whatever follows it: a
      client that sends its own header chooses the address it is known by. */
  lemma ClientIpTakesFirstEntry(entry: string, rest: string, remoteAddr: Option<string>)
    requires ',' !in entry
    ensures ClientIp(Some(entry + "," + rest), remoteAddr) == Strip(entry)
  {
    var h := entry + "," + rest;
    FirstFieldOfEntry(entry, rest);
  }

  lemma {:induction false} FirstFieldOfEntry(entry: string, rest: string)
    requires ',' !in entry
    ensures FirstField(entry + "," + rest, ',') == entry
    decreases |entry|
  {
    var h := entry + "," + rest;
    if |entry| > 0 {
      assert h[1..] == entry[1..] + "," + rest;
      FirstFieldOfEntry(entry[1..], rest);
      assert h[0] == entry[0];
      assert entry == [entry[0]] + entry[1..];
    }
  }

  /** A header of a single entry gives that entry, trimmed. */
  lemma ClientIpSingleEntry(entry: string, remoteAddr: Option<string>)
    requires ',' !in entry && entry != []
    ensures ClientIp(Some(entry), remoteAddr) == Strip(entry)
  {
    assert FirstField(entry, ',') == entry;
  }

  // ---------------- the error message ----------------

  /** A value in an error payload: a list (its items' texts, and its own
      `str()` text), a string, or anything else (its truthiness and its
      `str()` text). */
  datatype ErrValue =
    | EList(items: seq<string>, text: string)
    | EStr(s: string)
    | EOther(truthy: bool, text: string)

  /** An error payload: a dict (its entries in insertion order), a list
      (its items' texts), or anything else. */
  datatype ErrorData =
    | DictData(entries: seq<(string, ErrValue)>)
    | ListData(items: seq<string>)
    | OtherData

  const DefaultMessage: string := "An error occurred"
  const NonFieldFallback: string := "Validation error"

  /** `str(v)` */
  function Show(v: ErrValue): string {
    match v
    case EList(_, text) => text
    case EStr(s) => s
    case EOther(_, text) => text
  }

  /** The value stored under `key`. */
  function Lookup(es: seq<(string, ErrValue)>, key: string): (r: Option<ErrValue>)
    ensures r.None? <==> forall k :: 0 <= k < |es| ==> es[k].0 != key
    ensures r.Some? ==> exists k :: 0 <= k < |es| && es[k].0 == key && es[k].1 == r.value
  {
    if |es| == 0 then None
    else if es[0].0 == key then Some(es[0].1)
    else
      var r := Lookup(es[1..], key);
      assert forall k :: 1 <= k < |es| ==> es[k] == es[1..][k - 1];
      if r.Some? then
        var k :| 0 <= k < |es[1..]| && es[1..][k].0 == key && es[1..][k].1 == r.value;
        assert es[k + 1].0 == key && es[k + 1].1 == r.value;
        r
      else r
  }

  /** `str(v[0]) if v else 'Validation error'` for the `non_field_errors`
      value: the first item of a list, the first character of a string; a
      truthy value of any other kind cannot be indexed and raises. */
  function NonFieldMessage(v: ErrValue): (r: Option<string>)
    ensures r.None? <==> v.EOther? && v.truthy
    ensures v.EList? && v.items != [] ==> r == Some(v.items[0])
    ensures v.EStr? && v.s != [] ==> r == Some([v.s[0]])
    ensures (v.EList? && v.items == []) || (v.EStr? && v.s == []) || (v.EOther? && !v.truthy) ==>
      r == Some(NonFieldFallback)
  {
    match v
    case EList(items, _) => if items != [] then Some(items[0]) else Some(NonFieldFallback)
    case EStr(s) => if s != [] then Some([s[0]]) else Some(NonFieldFallback)
    case EOther(truthy, _) => if truthy then None else Some(NonFieldFallback)
  }

  /** The loop over the fields stops at a non-empty list or at any string. */
  predicate Reportable(v: ErrValue) {
    (v.EList? && v.items != []) || v.EStr?
  }

  /** `f"{key}: {value[0]}"` for a list, `f"{key}: {value}"` for a string. */
  function FieldLine(key: string, v: ErrValue): string
    requires Reportable(v)
  {
    key + ": " + if v.EList? then v.items[0] else v.s
  }

  /** `k` is the first entry the loop reports. */
  predicate FirstReportable(es: seq<(string, ErrValue)>, k: int) {
    0 <= k < |es| && Reportable(es[k].1) && forall m :: 0 <= m < k ==> !Reportable(es[m].1)
  }

  /** The message of the first reportable field, if any. */
  function FieldMessage(es: seq<(string, ErrValue)>): (r: Option<string>)
    ensures r.None? <==> forall k :: 0 <= k < |es| ==> !Reportable(es[k].1)
  {
    if |es| == 0 then None
    else if Reportable(es[0].1) then Some(FieldLine(es[0].0, es[0].1))
    else
      assert forall k :: 1 <= k < |es| ==> es[k] == es[1..][k - 1];
      FieldMessage(es[1..])
  }

  /** The loop reports the first reportable field and no other. */
  lemma {:induction false} FieldMessageIsFirst(es: seq<(string, ErrValue)>, k: int)
    requires FirstReportable(es, k)
    ensures FieldMessage(es) == Some(FieldLine(es[k].0, es[k].1))
    decreases |es|
  {
    if k > 0 {
      var tail := es[1..];
      assert FirstReportable(tail, k - 1) by {
        forall m | 0 <= m < k - 1 ensures !Reportable(tail[m].1) {
          assert tail[m] == es[m + 1];
        }
      }
      FieldMessageIsFirst(tail, k - 1);
    }
  }

  /** `get_error_message`, with `None` where it raises: a dict answers with
      its `detail`, else its `non_field_errors`, else its first reportable
      field; a non-empty list answers with its first item; everything else
      gets the generic message. */
  function ErrorMessage(data: ErrorData): (r: Option<string>)
    ensures r.None? <==>
      && data.DictData? && Lookup(data.entries, "detail").None?
      && Lookup(data.entries, "non_field_errors").Some?
      && Lookup(data.entries, "non_field_errors").value.EOther?
      && Lookup(data.entries, "non_field_errors").value.truthy
    ensures data.DictData? && Lookup(data.entries, "detail").Some? ==>
      r == Some(Show(Lookup(data.entries, "detail").value))
    ensures data.DictData? && Lookup(data.entries, "detail").None? && Lookup(data.entries, "non_field_errors").Some? ==>
      r == NonFieldMessage(Lookup(data.entries, "non_field_errors").value)
    ensures data.DictData? && Lookup(data.entries, "detail").None? && Lookup(data.entries, "non_field_errors").None? ==>
      && (FieldMessage(data.entries).Some? ==> r == FieldMessage(data.entries))
      && (FieldMessage(data.entries).None? ==> r == Some(DefaultMessage))
    ensures data.ListData? ==> r == Some(if data.items != [] then data.items[0] else DefaultMessage)
    ensures data.OtherData? ==> r == Some(DefaultMessage)
  {
    match data
    case DictData(es) =>
      var detail := Lookup(es, "detail");
      var nonField := Lookup(es, "non_field_errors");
      if detail.Some? then Some(Show(detail.value))
      else if nonField.Some? then NonFieldMessage(nonField.value)
      else if FieldMessage(es).Some? then FieldMessage(es)
      else Some(DefaultMessage)
    case ListData(items) => if items != [] then Some(items[0]) else Some(DefaultMessage)
    case OtherData => Some(DefaultMessage)
  }

  /** A `detail` entry wins over everything else in the payload, wherever
      it stands. */
  lemma DetailWins(before: seq<(string, ErrValue)>, d: ErrValue, after: seq<(string, ErrValue)>)
    requires forall k :: 0 <= k < |before| ==> before[k].0 != "detail"
    ensures ErrorMessage(DictData(before + [("detail", d)] + after)) == Some(Show(d))
  {
    var es := before + [("detail", d)] + after;
    assert es[|before|] == ("detail", d);
    LookupFindsFirst(es, "detail", |before|);
  }

  /** The first entry under a key is the one looked up. */
  lemma LookupFindsFirst(es: seq<(string, ErrValue)>, key: string, k: nat)
    requires k < |es| && es[k].0 == key && forall m :: 0 <= m < k ==> es[m].0 != key
    ensures Lookup(es, key) == Some(es[k].1)
    decreases k
  {
    if k > 0 {
      assert forall m :: 0 <= m < k - 1 ==> es[1..][m] == es[m + 1];
      LookupFindsFirst(es[1..], key, k - 1);
    }
  }

  /** Once a field is reportable, entries added after it do not change the
      message: the loop stops at the first one. */
  lemma FieldMessageIgnoresLaterFields(es: seq<(string, ErrValue)>, k: int, more: seq<(string, ErrValue)>)
    requires FirstReportable(es, k)
    ensures FieldMessage(es + more) == FieldMessage(es)
  {
    var all := es + more;
    assert FirstReportable(all, k) by {
      forall m | 0 <= m <= k ensures all[m] == es[m] {}
    }
    FieldMessageIsFirst(es, k);
    FieldMessageIsFirst(all, k);
  }

  /** A serializer's error for one field gives "field: message". */
  lemma SingleFieldError(key: string, msg: string, text: string)
    requires key != "detail" && key != "non_field_errors"
    ensures ErrorMessage(DictData([(key, EList([msg], text))])) == Some(key + ": " + msg)
  {
  }

  // ---------------- throttle keys ----------------

  /** Who is making the request, as the throttles see it. */
  datatype Requester = AnonymousRequester | SignedIn(pk: nat)

  /** `cache_format % {'scope': scope, 'ident': ident}` */
  function CacheKey(scope: string, ident: string): string {
    "throttle_" + scope + "_" + ident
  }

  /** The login limit is per client address, and signed-in callers are not
      limited at all. */
  function LoginKey(who: Requester, ip: string): (r: Option<string>)
    ensures r.None? <==> who.SignedIn?
    ensures r.Some? ==> r.value == CacheKey("login", ip)
  {
    if who.SignedIn? then None else Some(CacheKey("login", ip))
  }

  /** The registration limit is per client address for everyone. */
  function RegistrationKey(ip: string): (r: string)
    ensures r == CacheKey("register", ip)
    ensures |r| == 18 + |ip| && r[..18] == "throttle_register_" && r[18..] == ip
  {
    CacheKey("register", ip)
  }

  /** The sensitive-operation limit is per account for signed-in callers
      (the primary key in decimal) and per client address otherwise. */
  function SensitiveKey(who: Requester, ip: string): (r: string)
    ensures who.SignedIn? ==> r == CacheKey("sensitive", NatToString(who.pk))
    ensures who.AnonymousRequester? ==> r == CacheKey("sensitive", ip)
  {
    CacheKey("sensitive", if who.SignedIn? then NatToString(who.pk) else ip)
  }

  /** The three limits never share a counter: their keys differ right after
      the common prefix. */
  lemma ScopesApart(x: string, y: string)
    ensures CacheKey("login", x) != CacheKey("register", y)
    ensures CacheKey("login", x) != CacheKey("sensitive", y)
    ensures CacheKey("register", x) != CacheKey("sensitive", y)
  {
    assert CacheKey("login", x)[9] == 'l';
    assert CacheKey("register", y)[9] == 'r';
    assert CacheKey("sensitive", y)[9] == 's';
    assert CacheKey("register", x)[9] == 'r';
  }

  /** Within one limit, two keys are the same exactly when the idents are. */
  lemma CacheKeyInjective(scope: string, x: string, y: string)
    ensures CacheKey(scope, x) == CacheKey(scope, y) <==> x == y
  {
    if CacheKey(scope, x) == CacheKey(scope, y) {
      var n := |"throttle_" + scope + "_"|;
      assert CacheKey(scope, x)[n..] == x;
      assert CacheKey(scope, y)[n..] == y;
    }
  }

  /** Signed-in callers are limited per account, wherever they connect
      from: two accounts share a counter only if they are the same one. */
  lemma SensitiveKeyPerAccount(p: nat, q: nat, ip1: string, ip2: string)
    ensures SensitiveKey(SignedIn(p), ip1) == SensitiveKey(SignedIn(q), ip2) <==> p == q
  {
    CacheKeyInjective("sensitive", NatToString(p), NatToString(q));
    if NatToString(p) == NatToString(q) {
      NatToStringInjective(p, q);
    }
  }

  /** Addresses and account numbers share one key space: an anonymous
      caller whose forwarded-for header reads as an account's primary key
      counts against that account's sensitive-operation limit. */
  lemma ForwardedPkSharesAccountCounter(p: nat, remoteAddr: Option<string>, ip: string)
    ensures SensitiveKey(AnonymousRequester, ClientIp(Some(NatToString(p)), remoteAddr))
         == SensitiveKey(SignedIn(p), ip)
  {
    var d := NatToString(p);
    forall m | 0 <= m < |d| ensures d[m] != ',' && !IsSpace(d[m]) {
      assert IsDigit(d[m]);
    }
    ClientIpSingleEntry(d, remoteAddr);
    StripFixed(d);
  }
}
