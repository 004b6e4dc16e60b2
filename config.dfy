/** Application settings: the three comma-separated list settings and the
    integer defaults the rest of the model reads (app/core/config.py). */
module Config {
  import opened Strings

  /** Default token lifetime in minutes, as in the settings class. */
  const ACCESS_TOKEN_EXPIRE_MINUTES: int := 30

  /** The two list defaults, written piece by piece: the same strings as
      "http://localhost:3000,http://frontend:3000,http://example.com" and
      "localhost,127.0.0.1,testserver,backend,frontend". */
  const DEFAULT_ALLOWED_ORIGINS: string :=
    "http://localhost:3000" + "," + ("http://frontend:3000" + "," + "http://example.com")
  const DEFAULT_ALLOWED_HOSTS: string :=
    "localhost" + "," + ("127.0.0.1" + "," + ("testserver" + "," + ("backend" + "," + "frontend")))
  const DEFAULT_ADMIN_ALLOWED_IPS: string := ""

  /** The raw string settings the list properties are computed from. */
  datatype Settings = Settings(allowedOrigins: string, allowedHosts: string, adminAllowedIpsStr: string)

  const DEFAULTS: Settings := Settings(DEFAULT_ALLOWED_ORIGINS, DEFAULT_ALLOWED_HOSTS, DEFAULT_ADMIN_ALLOWED_IPS)

  /** `[item.strip() for item in parts if item.strip()]`. */
  function CleanItems(parts: seq<string>): seq<string> {
    if |parts| == 0 then []
    else
      var t := Strip(parts[0]);
      (if t == "" then [] else [t]) + CleanItems(parts[1..])
  }

  /** The shared body of the three list properties: split on `,`, strip each
      piece, drop the empty ones. */
  function CommaList(s: string): seq<string> {
    CleanItems(Split(s, ','))
  }

  /** A list setting never holds an empty or unstripped entry. */
  ghost predicate CleanList(items: seq<string>) {
    forall i :: 0 <= i < |items| ==> items[i] != "" && Strip(items[i]) == items[i]
  }

  function AllowedOriginsList(settings: Settings): (r: seq<string>)
    ensures CleanList(r)
  {
    CommaListIsClean(settings.allowedOrigins);
    CommaList(settings.allowedOrigins)
  }

  function AllowedHostsList(settings: Settings): (r: seq<string>)
    ensures CleanList(r)
  {
    CommaListIsClean(settings.allowedHosts);
    CommaList(settings.allowedHosts)
  }

  function AdminAllowedIps(settings: Settings): (r: seq<string>)
    ensures CleanList(r)
  {
    CommaListIsClean(settings.adminAllowedIpsStr);
    CommaList(settings.adminAllowedIpsStr)
  }

  lemma {:induction false} CleanItemsAreClean(parts: seq<string>)
    ensures CleanList(CleanItems(parts))
  {
    if |parts| > 0 {
      CleanItemsAreClean(parts[1..]);
      var t := Strip(parts[0]);
      CleanHead(parts[0]);
      CleanListAppend(if t == "" then [] else [t], CleanItems(parts[1..]));
    }
  }

  lemma CleanHead(p: string)
    ensures CleanList(if Strip(p) == "" then [] else [Strip(p)])
  {
    StripIdempotent(p);
  }

  lemma CleanListAppend(a: seq<string>, b: seq<string>)
    requires CleanList(a) && CleanList(b)
    ensures CleanList(a + b)
  {
    forall i | 0 <= i < |a + b|
      ensures (a + b)[i] != "" && Strip((a + b)[i]) == (a + b)[i]
    {
      if i >= |a| {
        assert (a + b)[i] == b[i - |a|];
      }
    }
  }

  /** Every entry is non-empty and equal to its own strip. */
  lemma CommaListIsClean(s: string)
    ensures CleanList(CommaList(s))
  {
    CleanItemsAreClean(Split(s, ','));
  }

  lemma {:induction false} CleanItemsLength(parts: seq<string>)
    ensures |CleanItems(parts)| <= |parts|
  {
    if |parts| > 0 {
      CleanItemsLength(parts[1..]);
    }
  }

  /** At most one entry more than there are commas. */
  lemma CommaListLength(s: string)
    ensures |CommaList(s)| <= Count(s, ',') + 1
  {
    CleanItemsLength(Split(s, ','));
    SplitCount(s, ',');
  }

  /** Entries that are already clean pass through unchanged, in order. */
  lemma {:induction false} CleanItemsOfClean(parts: seq<string>)
    requires forall k :: 0 <= k < |parts| ==> parts[k] != "" && Strip(parts[k]) == parts[k]
    ensures CleanItems(parts) == parts
  {
    if |parts| > 0 {
      CleanItemsOfClean(parts[1..]);
    }
  }

  /** When every comma-separated segment is already non-empty and stripped,
      the list keeps the source order and joining it with "," gives back the
      setting. */
  lemma CommaListRoundTrip(s: string)
    requires forall k :: 0 <= k < |Split(s, ',')| ==>
      Split(s, ',')[k] != "" && Strip(Split(s, ',')[k]) == Split(s, ',')[k]
    ensures CommaList(s) == Split(s, ',')
    ensures Join(CommaList(s), ',') == s
  {
    CleanItemsOfClean(Split(s, ','));
    JoinSplit(s, ',');
  }

  /** A setting entry that needs no cleaning and contains no comma. */
  predicate CleanPiece(s: string) {
    s != [] && ',' !in s && !IsSpace(s[0]) && !IsSpace(s[|s| - 1])
  }

  /** The list of an explicit join of clean comma-free entries is those entries. */
  lemma CommaListOfJoin(items: seq<string>)
    requires |items| >= 1
    requires forall k :: 0 <= k < |items| ==> CleanPiece(items[k])
    ensures CommaList(Join(items, ',')) == items
  {
    CleanPiecesAreStripped(items);
    SplitJoin(items, ',');
    CommaListOfSplitJoin(items);
  }

  lemma CleanPiecesAreStripped(items: seq<string>)
    requires forall k :: 0 <= k < |items| ==> CleanPiece(items[k])
    ensures forall k :: 0 <= k < |items| ==> items[k] != "" && Strip(items[k]) == items[k]
  {
    forall k | 0 <= k < |items| ensures Strip(items[k]) == items[k] {
      StripOfStripped(items[k]);
    }
  }

  lemma CommaListOfSplitJoin(items: seq<string>)
    requires forall k :: 0 <= k < |items| ==> items[k] != "" && Strip(items[k]) == items[k]
    requires Split(Join(items, ','), ',') == items
    ensures CommaList(Join(items, ',')) == items
  {
    CleanItemsOfClean(items);
  }

  /** The default (empty) admin IP setting gives the empty list. */
  lemma DefaultAdminIpsEmpty()
    ensures AdminAllowedIps(DEFAULTS) == []
  {
    assert Split("", ',') == [""];
    assert Strip("") == "";
  }

  lemma JoinOrigins()
    ensures Join(["http://localhost:3000", "http://frontend:3000", "http://example.com"], ',')
         == DEFAULT_ALLOWED_ORIGINS
  {
    JoinCons("http://example.com", [], ',');
    JoinCons("http://frontend:3000", ["http://example.com"], ',');
    JoinCons("http://localhost:3000", ["http://frontend:3000", "http://example.com"], ',');
  }

  /** `sep.join([a] + rest)` puts one separator after `a`. */
  lemma JoinCons(a: string, rest: seq<string>, sep: char)
    ensures |rest| == 0 ==> Join([a] + rest, sep) == a
    ensures |rest| > 0 ==> Join([a] + rest, sep) == a + [sep] + Join(rest, sep)
  {
    assert ([a] + rest)[1..] == rest;
  }

  lemma CleanOrigins()
    ensures CleanPiece("http://localhost:3000") && CleanPiece("http://frontend:3000")
    ensures CleanPiece("http://example.com")
  {
  }

  /** The default origins setting gives its three URLs. */
  lemma DefaultOrigins()
    ensures AllowedOriginsList(DEFAULTS)
         == ["http://localhost:3000", "http://frontend:3000", "http://example.com"]
  {
    JoinOrigins();
    CleanOrigins();
    CommaListOfJoin(["http://localhost:3000", "http://frontend:3000", "http://example.com"]);
  }

  lemma JoinHosts()
    ensures Join(["localhost", "127.0.0.1", "testserver", "backend", "frontend"], ',')
         == DEFAULT_ALLOWED_HOSTS
  {
    JoinCons("frontend", [], ',');
    JoinCons("backend", ["frontend"], ',');
    JoinCons("testserver", ["backend", "frontend"], ',');
    JoinCons("127.0.0.1", ["testserver", "backend", "frontend"], ',');
    JoinCons("localhost", ["127.0.0.1", "testserver", "backend", "frontend"], ',');
  }

  lemma CleanHosts()
    ensures CleanPiece("localhost") && CleanPiece("127.0.0.1") && CleanPiece("testserver")
    ensures CleanPiece("backend") && CleanPiece("frontend")
  {
  }

  /** The default hosts setting gives its five host names. */
  lemma DefaultHosts()
    ensures AllowedHostsList(DEFAULTS)
         == ["localhost", "127.0.0.1", "testserver", "backend", "frontend"]
  {
    JoinHosts();
    CleanHosts();
    CommaListOfJoin(["localhost", "127.0.0.1", "testserver", "backend", "frontend"]);
  }
}
