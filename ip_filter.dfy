/** The admin IP allow-list (app/core/ip_filter.py): a set of single
    addresses and CIDR networks, an empty set meaning "allow everyone". */
module IpFilter {
  import opened Common
  import opened Strings
  import opened IPv4
  import Config

  const INVALID_ENTRY: string := "Invalid IP address or CIDR range: "
  const ACCESS_DENIED: string := "Access denied: Your IP is not whitelisted for admin access."

  /** What `add_ip` stores for an entry: a network (an entry with '/') is
      read non-strictly and stored printed, host bits cleared; an address is
      stored as given.  None when the entry does not parse. */
  function StoredEntry(ip: string): Option<string> {
    if '/' in ip then
      match ParseNetwork(ip)
      case Some(n) => Some(FormatNetwork(n))
      case None => None
    else
      match ParseAddress(ip)
      case Some(_) => Some(ip)
      case None => None
  }

  /** An entry as `add_ip` leaves it in the set. */
  predicate IsStoredForm(e: string) {
    StoredEntry(e) == Some(e)
  }

  /** Whether stored entry `e` is a network containing `a` (the loop of `is_allowed`). */
  predicate InNetwork(e: string, a: Address) {
    '/' in e && ParseNetwork(e).Some? && Contains(ParseNetwork(e).value, a)
  }

  /** `is_allowed`: everyone when the set is empty; otherwise the client
      address must parse and be an entry, or lie in an entry's network. */
  predicate Allows(allowed: set<string>, ip: string) {
    if allowed == {} then true
    else match ParseAddress(ip)
      case None => false
      case Some(a) => FormatAddress(a) in allowed || exists e :: e in allowed && InNetwork(e, a)
  }

  /** Stored entry `e` stands for address `a`: its network contains it, or it is that address. */
  predicate Denotes(e: string, a: Address) {
    if '/' in e then InNetwork(e, a) else ParseAddress(e) == Some(a)
  }

  /** The entries a list leaves in the set: the stored forms of its valid entries. */
  function StoredEntries(ips: seq<string>): set<string> {
    if |ips| == 0 then {}
    else StoredEntries(ips[..|ips| - 1]) + StoredSingleton(ips[|ips| - 1])
  }

  function StoredSingleton(ip: string): set<string> {
    match StoredEntry(ip)
    case Some(e) => {e}
    case None => {}
  }

  lemma StoredEntriesSnoc(ips: seq<string>, i: nat)
    requires i < |ips|
    ensures StoredEntries(ips[..i + 1]) == StoredEntries(ips[..i]) + StoredSingleton(ips[i])
  {
    assert ips[..i + 1][..i] == ips[..i];
  }

  /** `r` is the ValueError of the first entry of `ips` that does not parse. */
  predicate FirstInvalid(ips: seq<string>, r: Outcome) {
    exists i :: 0 <= i < |ips| && StoredEntry(ips[i]).None?
      && (forall j :: 0 <= j < i ==> StoredEntry(ips[j]).Some?)
      && r == Fail(ValueError(INVALID_ENTRY + ips[i]))
  }

  lemma ParsedPrefixSnoc(ips: seq<string>, i: nat)
    requires i < |ips| && StoredEntry(ips[i]).Some?
    requires forall j :: 0 <= j < i ==> StoredEntry(ips[j]).Some?
    ensures forall j :: 0 <= j < i + 1 ==> StoredEntry(ips[j]).Some?
  {
    forall j | 0 <= j < i + 1
      ensures StoredEntry(ips[j]).Some?
    {
      if j < i {
      } else {
        assert j == i;
      }
    }
  }

  /** An entry that does not parse, after entries that all do, is the first invalid one. */
  lemma FirstInvalidAt(ips: seq<string>, i: nat)
    requires i < |ips| && StoredEntry(ips[i]).None?
    requires forall j :: 0 <= j < i ==> StoredEntry(ips[j]).Some?
    ensures FirstInvalid(ips, Fail(ValueError(INVALID_ENTRY + ips[i])))
    ensures !forall j :: 0 <= j < |ips| ==> StoredEntry(ips[j]).Some?
  {
  }

  /** A stored entry is stored again unchanged: adding is idempotent. */
  lemma StoredEntryIsStored(ip: string)
    requires StoredEntry(ip).Some?
    ensures IsStoredForm(StoredEntry(ip).value)
  {
    if '/' in ip {
      var n := ParseNetwork(ip).value;
      FormatNetworkHasSlash(n);
      ParseFormatNetwork(n);
    }
  }

  lemma StoredEntriesAreStored(ips: seq<string>)
    ensures forall e :: e in StoredEntries(ips) ==> IsStoredForm(e)
  {
    if |ips| > 0 {
      StoredEntriesAreStored(ips[..|ips| - 1]);
      if StoredEntry(ips[|ips| - 1]).Some? {
        StoredEntryIsStored(ips[|ips| - 1]);
      }
    }
  }

  /** For a non-empty valid set: an address is let in exactly when it parses
      and some entry stands for it. */
  lemma AllowsCharacterization(allowed: set<string>, ip: string)
    requires allowed != {}
    requires forall e :: e in allowed ==> IsStoredForm(e)
    ensures Allows(allowed, ip) <==>
      ParseAddress(ip).Some? && exists e :: e in allowed && Denotes(e, ParseAddress(ip).value)
  {
    if ParseAddress(ip).Some? {
      var a := ParseAddress(ip).value;
      if FormatAddress(a) in allowed {
        FormatAddressHasNoSlash(a);
        ParseFormatAddress(a);
        assert Denotes(FormatAddress(a), a);
      }
      if e :| e in allowed && Denotes(e, a) {
        if '/' !in e {
          FormatParseAddress(e);
          assert FormatAddress(a) == e;
        } else {
          assert InNetwork(e, a);
        }
      }
    }
  }

  /** An added single address is let in. */
  lemma AddedAddressAllowed(allowed: set<string>, ip: string)
    requires '/' !in ip && StoredEntry(ip).Some?
    ensures Allows(allowed + {StoredEntry(ip).value}, ip)
  {
    FormatParseAddress(ip);
  }

  /** After adding a network, every address it contains is let in. */
  lemma AddedNetworkAllowed(allowed: set<string>, ip: string, a: Address)
    requires '/' in ip && ParseNetwork(ip).Some? && Contains(ParseNetwork(ip).value, a)
    ensures Allows(allowed + {StoredEntry(ip).value}, FormatAddress(a))
  {
    var n := ParseNetwork(ip).value;
    FormatNetworkHasSlash(n);
    ParseFormatNetwork(n);
    ParseFormatAddress(a);
    assert InNetwork(FormatNetwork(n), a);
  }

  /** Adding entries to a non-empty list never locks anyone out ... */
  lemma AllowsMonotone(small: set<string>, large: set<string>, ip: string)
    requires small != {} && small <= large
    requires Allows(small, ip)
    ensures Allows(large, ip)
  {
  }

  /** ... but the first entry does: the empty list lets in even an address
      that does not parse, and one entry shuts it out. */
  lemma FirstEntryRestricts()
    ensures Allows({}, "not-an-ip")
    ensures !Allows({"10.0.0.1"}, "not-an-ip")
  {
    assert Split("not-an-ip", '.') == ["not-an-ip"] by {
      SplitWithoutSeparator("not-an-ip", '.');
    }
  }

  /** `IPFilter`: the set of allowed entries. */
  class IPFilter {
    var allowedIps: set<string>

    /** Every entry is in the form `add_ip` stores. */
    ghost predicate Valid()
      reads this
    {
      forall e :: e in allowedIps ==> IsStoredForm(e)
    }

    constructor Empty()
      ensures allowedIps == {} && Valid()
    {
      allowedIps := {};
    }

    /** `add_ip`: store the entry, or raise ValueError and leave the set alone. */
    method AddIp(ip: string) returns (r: Outcome)
      requires Valid()
      modifies this
      ensures Valid()
      ensures StoredEntry(ip).Some? ==> r == Pass && allowedIps == old(allowedIps) + {StoredEntry(ip).value}
      ensures StoredEntry(ip).None? ==>
        r == Fail(ValueError(INVALID_ENTRY + ip)) && allowedIps == old(allowedIps)
    {
      var entry := StoredEntry(ip);
      if entry.None? {
        return Fail(ValueError(INVALID_ENTRY + ip));
      }
      StoredEntryIsStored(ip);
      allowedIps := allowedIps + {entry.value};
      return Pass;
    }

    /** The loop of `__init__`: add the entries of the list in order; the
        first invalid one stops it with its ValueError. */
    method AddAll(ips: seq<string>) returns (r: Outcome)
      requires Valid()
      modifies this
      ensures Valid()
      ensures r == Pass <==> forall i :: 0 <= i < |ips| ==> StoredEntry(ips[i]).Some?
      ensures r == Pass ==> allowedIps == old(allowedIps) + StoredEntries(ips)
      ensures r != Pass ==> FirstInvalid(ips, r)
    {
      var i := 0;
      while i < |ips|
        invariant 0 <= i <= |ips|
        invariant forall j :: 0 <= j < i ==> StoredEntry(ips[j]).Some?
        invariant Valid() && allowedIps == old(allowedIps) + StoredEntries(ips[..i])
      {
        var o := AddIp(ips[i]);
        if o.Fail? {
          FirstInvalidAt(ips, i);
          return o;
        }
        ParsedPrefixSnoc(ips, i);
        StoredEntriesSnoc(ips, i);
        i := i + 1;
      }
      assert ips[..i] == ips;
      return Pass;
    }

    /** `__init__`: start empty and add the list (no list, None, is the
        empty list); an invalid entry aborts construction. */
    static method New(ips: seq<string>) returns (r: Result<IPFilter>)
      ensures r.Ok? <==> forall i :: 0 <= i < |ips| ==> StoredEntry(ips[i]).Some?
      ensures r.Ok? ==> fresh(r.value) && r.value.Valid() && r.value.allowedIps == StoredEntries(ips)
      ensures r.Err? ==> FirstInvalid(ips, Fail(r.error))
    {
      var f := new IPFilter.Empty();
      var o := f.AddAll(ips);
      if o.Fail? {
        return Err(o.error);
      }
      return Ok(f);
    }

    /** The module's `ip_filter`, built from the admin IP setting. */
    static method FromSettings(settings: Config.Settings) returns (r: Result<IPFilter>)
      ensures r.Ok? <==> forall i :: 0 <= i < |Config.AdminAllowedIps(settings)| ==>
        StoredEntry(Config.AdminAllowedIps(settings)[i]).Some?
      ensures r.Ok? ==> (fresh(r.value) && r.value.Valid()
        && r.value.allowedIps == StoredEntries(Config.AdminAllowedIps(settings)))
      ensures r.Err? ==> FirstInvalid(Config.AdminAllowedIps(settings), Fail(r.error))
    {
      r := New(Config.AdminAllowedIps(settings));
    }

    /** `is_allowed`: the exact address first, then a pass over the networks. */
    method IsAllowed(ip: string) returns (b: bool)
      requires Valid()
      ensures b == Allows(allowedIps, ip)
    {
      if allowedIps == {} {
        return true;
      }
      var parsed := ParseAddress(ip);
      if parsed.None? {
        return false;
      }
      var a := parsed.value;
      if FormatAddress(a) in allowedIps {
        return true;
      }
      var rest := allowedIps;
      while rest != {}
        invariant rest <= allowedIps
        invariant forall e :: e in allowedIps && e !in rest ==> !InNetwork(e, a)
        decreases |rest|
      {
        var e :| e in rest;
        if '/' in e {
          var n := ParseNetwork(e);
          assert n.Some?;
          if Contains(n.value, a) {
            return true;
          }
        }
        rest := rest - {e};
      }
      return false;
    }

    /** `verify_admin_ip`: 403 unless the client host is allowed. */
    method VerifyAdminIp(clientHost: string) returns (r: Outcome)
      requires Valid()
      ensures r == Pass <==> Allows(allowedIps, clientHost)
      ensures r != Pass ==> r == Fail(HttpError(403, ACCESS_DENIED))
    {
      var ok := IsAllowed(clientHost);
      if !ok {
        return Fail(HttpError(403, ACCESS_DENIED));
      }
      return Pass;
    }
  }
}
