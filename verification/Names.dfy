/** Allocation of unique names by probing suffixes: Clash proxy names (internal/sub/clash_service.go) and the client
    emails of an imported server (internal/awg/import_parse.go, internal/awg/import_build.go). */
module Names {
  import opened Text

  // ---------------------------------------------------------------- probing

  /** The k-th name tried for a base: the base itself, then base-2, base-3, ... */
  function Candidate(base: string, k: nat): string {
    if k <= 1 then base else base + "-" + Itoa(k)
  }

  lemma CandidatesDiffer(base: string, j: nat, k: nat)
    requires 1 <= j < k
    ensures Candidate(base, j) != Candidate(base, k)
  {
    var c := Candidate(base, k);
    assert |c| > |base|;
    if j > 1 && Candidate(base, j) == c {
      var n := |base| + 1;
      assert Candidate(base, j)[n..] == NatToString(j) && c[n..] == NatToString(k);
      NatToStringInjective(j, k);
    }
  }

  /** The first candidate that is free. */
  ghost predicate FirstFree(name: string, base: string, taken: set<string>, k: nat) {
    && 1 <= k <= |taken| + 1 && name == Candidate(base, k) && name !in taken
    && forall j :: 1 <= j < k ==> Candidate(base, j) in taken
  }

  lemma SubsetSize(a: set<string>, b: set<string>)
    requires a <= b
    ensures |a| <= |b|
  {
    if a != {} {
      var x :| x in a;
      SubsetSize(a - {x}, b - {x});
    }
  }

  /** The probing loop ends within |taken| + 1 tries: the candidates are pairwise different, so they cannot all be
      taken. */
  method Probe(base: string, taken: set<string>) returns (name: string, tries: nat)
    ensures FirstFree(name, base, taken, tries)
  {
    name := base;
    var n := 2;
    ghost var tried: set<string> := {};
    while name in taken
      invariant n >= 2 && name == Candidate(base, n - 1)
      invariant tried <= taken && |tried| == n - 2
      invariant forall j :: 1 <= j < n - 1 ==> Candidate(base, j) in tried
      invariant forall t <- tried :: exists j :: 1 <= j < n - 1 && t == Candidate(base, j)
      decreases |taken| + 2 - n
    {
      assert name !in tried by {
        if name in tried {
          var j :| 1 <= j < n - 1 && name == Candidate(base, j);
          CandidatesDiffer(base, j, n - 1);
        }
      }
      tried := tried + {name};
      SubsetSize(tried, taken);
      name := base + "-" + Itoa(n);
      n := n + 1;
    }
    SubsetSize(tried, taken);
    tries := n - 1;
  }

  lemma FirstFreeOne(a: string, b: string, base: string, taken: set<string>, j: nat, k: nat)
    requires FirstFree(a, base, taken, j) && FirstFree(b, base, taken, k)
    ensures a == b
  {
    assert j < k ==> Candidate(base, j) in taken;
    assert k < j ==> Candidate(base, k) in taken;
  }

  // ---------------------------------------------------------------- proxy names

  datatype Proxy = Proxy(name: string, typ: string, server: string, port: string)

  /** fallbackProxyName. */
  function Fallback(p: Proxy, i: nat): (name: string)
    ensures name != ""
  {
    if p.typ != "" && p.server != "" then p.typ + "-" + p.server + "-" + p.port else "proxy-" + Itoa(i + 1)
  }

  function Base(p: Proxy, i: nat): (name: string)
    ensures name != ""
  {
    if p.name == "" then Fallback(p, i) else p.name
  }

  function NamesOf(ps: seq<Proxy>): set<string> { set p <- ps :: p.name }

  predicate DistinctNames(ps: seq<Proxy>) {
    forall i, j :: 0 <= i < j < |ps| ==> ps[i].name != ps[j].name
  }

  predicate Named(ps: seq<Proxy>) { forall p <- ps :: p.name != "" }

  /** after is before with every name replaced by the first one free, the earlier proxies' new names being taken. */
  ghost predicate Renamed(before: seq<Proxy>, after: seq<Proxy>) {
    && |after| == |before|
    && forall i :: 0 <= i < |before| ==> RenamedAt(before, after, i)
  }

  ghost predicate RenamedAt(before: seq<Proxy>, after: seq<Proxy>, i: nat)
    requires |after| == |before| && i < |before|
  {
    && after[i] == before[i].(name := after[i].name)
    && exists k :: FirstFree(after[i].name, Base(before[i], i), NamesOf(after[..i]), k)
  }

  /** ensureUniqueProxyNames, in place. */
  method EnsureUniqueNames(proxies: array<Proxy>)
    modifies proxies
    ensures Renamed(old(proxies[..]), proxies[..])
    ensures Named(proxies[..]) && DistinctNames(proxies[..])
  {
    var seen: set<string> := {};
    for i := 0 to proxies.Length
      invariant proxies[i..] == old(proxies[..])[i..]
      invariant seen == NamesOf(proxies[..i])
      invariant Renamed(old(proxies[..])[..i], proxies[..i])
    {
      ghost var before, after := old(proxies[..]), proxies[..i];
      assert proxies[i] == proxies[i..][0] == before[i];
      var name, tries := Rename(proxies, i, seen);
      seen := seen + {name};
      RenamedNext(before[..i], after, before[i], name, tries);
      assert proxies[..i + 1] == after + [before[i].(name := name)] && before[..i + 1] == before[..i] + [before[i]];
    }
    assert proxies[..proxies.Length] == proxies[..];
    assert old(proxies[..])[..proxies.Length] == old(proxies[..]);
    RenamedIsUnique(old(proxies[..]), proxies[..]);
  }

  /** One round: the name or its fallback, then the probing. */
  method Rename(proxies: array<Proxy>, i: nat, seen: set<string>) returns (name: string, tries: nat)
    requires i < proxies.Length
    modifies proxies
    ensures proxies[..i] == old(proxies[..i]) && proxies[i + 1..] == old(proxies[i + 1..])
    ensures proxies[i] == old(proxies[i]).(name := name)
    ensures FirstFree(name, Base(old(proxies[i]), i), seen, tries)
  {
    var base := proxies[i].name;
    if base == "" { base := Fallback(proxies[i], i); }
    name, tries := Probe(base, seen);
    proxies[i] := proxies[i].(name := name);
  }

  lemma NamesSnoc(ps: seq<Proxy>, p: Proxy)
    ensures NamesOf(ps + [p]) == NamesOf(ps) + {p.name}
  {
  }

  lemma RenamedNext(before: seq<Proxy>, after: seq<Proxy>, p: Proxy, name: string, k: nat)
    requires Renamed(before, after) && FirstFree(name, Base(p, |before|), NamesOf(after), k)
    ensures Renamed(before + [p], after + [p.(name := name)])
    ensures NamesOf(after + [p.(name := name)]) == NamesOf(after) + {name}
  {
    NamesSnoc(after, p.(name := name));
    var b, a := before + [p], after + [p.(name := name)];
    forall i | 0 <= i < |b| ensures RenamedAt(b, a, i) {
      if i < |before| {
        assert RenamedAt(before, after, i);
        assert a[..i] == after[..i];
      } else {
        assert a[..i] == after;
      }
    }
  }

  lemma CandidateNonEmpty(base: string, k: nat)
    requires base != ""
    ensures Candidate(base, k) != ""
  {
  }

  /** Every name ends up non-empty and no two are equal. */
  lemma RenamedIsUnique(before: seq<Proxy>, after: seq<Proxy>)
    requires Renamed(before, after)
    ensures Named(after) && DistinctNames(after)
  {
    forall i | 0 <= i < |after| ensures after[i].name != "" {
      assert RenamedAt(before, after, i);
      var k :| FirstFree(after[i].name, Base(before[i], i), NamesOf(after[..i]), k);
      CandidateNonEmpty(Base(before[i], i), k);
    }
    forall i, j | 0 <= i < j < |after| ensures after[i].name != after[j].name {
      assert RenamedAt(before, after, j);
      assert after[..j][i] in after[..j];
    }
  }

  /** The result is determined by the input. */
  lemma {:induction false} RenamedOne(before: seq<Proxy>, a: seq<Proxy>, b: seq<Proxy>, n: nat)
    requires Renamed(before, a) && Renamed(before, b) && n <= |before|
    ensures a[..n] == b[..n]
  {
    if n > 0 {
      RenamedOne(before, a, b, n - 1);
      var i := n - 1;
      assert RenamedAt(before, a, i) && RenamedAt(before, b, i);
      var j :| FirstFree(a[i].name, Base(before[i], i), NamesOf(a[..i]), j);
      var k :| FirstFree(b[i].name, Base(before[i], i), NamesOf(b[..i]), k);
      FirstFreeOne(a[i].name, b[i].name, Base(before[i], i), NamesOf(a[..i]), j, k);
      assert a[..n] == a[..i] + [a[i]] && b[..n] == b[..i] + [b[i]];
    }
  }

  /** Names that are already unique and non-empty are left alone; so doing it twice changes nothing more. */
  lemma UniqueNamesKept(before: seq<Proxy>, after: seq<Proxy>)
    requires Renamed(before, after) && Named(before) && DistinctNames(before)
    ensures after == before
  {
    forall i | 0 <= i < |before| ensures RenamedAt(before, before, i) {
      assert FirstFree(before[i].name, Base(before[i], i), NamesOf(before[..i]), 1);
    }
    RenamedOne(before, before, after, |before|);
    assert before[..|before|] == before && after[..|before|] == after;
  }

  // ---------------------------------------------------------------- imported emails

  predicate SlugChar(c: char) {
    'a' <= c <= 'z' || 'A' <= c <= 'Z' || IsDigit(c) || c == '.' || c == '-' || c == '_'
  }

  predicate Edge(c: char) { c == '-' || c == '.' || c == '_' }

  function Kept(s: string): string {
    if s == [] then []
    else
      var c := s[|s| - 1];
      Kept(s[..|s| - 1]) + (if SlugChar(c) then [c] else if c == ' ' then ['-'] else [])
  }

  function StripLeft(s: string): string { if s != [] && Edge(s[0]) then StripLeft(s[1..]) else s }
  function StripRight(s: string): string { if s != [] && Edge(s[|s| - 1]) then StripRight(s[..|s| - 1]) else s }

  predicate CleanSlug(s: string) {
    (forall c <- s :: SlugChar(c)) && (s != [] ==> !Edge(s[0]) && !Edge(s[|s| - 1]))
  }

  lemma {:induction false} KeptSlug(s: string)
    ensures forall c <- Kept(s) :: SlugChar(c)
  {
    if s != [] { KeptSlug(s[..|s| - 1]); }
  }

  lemma {:induction false} StripLeftClean(s: string)
    ensures forall c <- StripLeft(s) :: c in s
    ensures StripLeft(s) != [] ==> !Edge(StripLeft(s)[0])
  {
    if s != [] && Edge(s[0]) { StripLeftClean(s[1..]); }
  }

  lemma {:induction false} StripRightClean(s: string)
    ensures forall c <- StripRight(s) :: c in s
    ensures StripRight(s) != [] ==> !Edge(StripRight(s)[|StripRight(s)| - 1]) && StripRight(s)[0] == s[0]
  {
    if s != [] && Edge(s[|s| - 1]) { StripRightClean(s[..|s| - 1]); }
  }

  /** slugEmail: the characters an email may hold, with no punctuation at either end. */
  method SlugEmail(name: string) returns (slug: string)
    ensures slug == Slug(name)
    ensures CleanSlug(slug)
  {
    var s := Trim(name);
    var b: string := [];
    for i := 0 to |s|
      invariant b == Kept(s[..i])
    {
      assert s[..i + 1][..i] == s[..i];
      if SlugChar(s[i]) {
        b := b + [s[i]];
      } else if s[i] == ' ' {
        b := b + ['-'];
      }
    }
    assert s[..|s|] == s;
    KeptSlug(s);
    StripLeftClean(b);
    StripRightClean(StripLeft(b));
    slug := StripRight(StripLeft(b));
  }

  function FirstHost(allowedIPs: string): string {
    Trim(Cut(Trim(Cut(allowedIPs, ',').0), '/').0)
  }

  predicate IsLower(s: string) { ToLower(s) == s }

  lemma LowerIsLower(s: string)
    ensures IsLower(ToLower(s))
  {
  }

  lemma CandidateLower(base: string, k: nat)
    requires IsLower(base)
    ensures IsLower(Candidate(base, k))
  {
    var c := Candidate(base, k);
    ItoaPlain(k);
    forall i | 0 <= i < |c| ensures LowerChar(c[i]) == c[i] {
      if i < |base| {
        assert c[i] == base[i] == ToLower(base)[i];
      } else if i > |base| {
        assert c[i] == Itoa(k)[i - |base| - 1];
        assert c[i] in Itoa(k);
      }
    }
  }

  function Slug(name: string): string { StripRight(StripLeft(Kept(Trim(name)))) }

  /** What an email is built from: the name, else the first address, else the key. */
  function EmailBase(name: string, allowedIPs: string, publicKey: string): string {
    var base := if Slug(name) != "" then Slug(name) else "awg-" + FirstHost(allowedIPs);
    ToLower(if base != "awg-" then base else if |publicKey| >= 8 then "awg-" + publicKey[..8] else "awg-peer")
  }

  lemma {:induction false} SlugCharsKept(s: string)
    requires forall c <- s :: SlugChar(c)
    ensures Kept(s) == s
  {
    if s != [] {
      var n := |s| - 1;
      SlugCharsKept(s[..n]);
      assert s == s[..n] + [s[n]] && s[n] in s;
    }
  }

  /** A name that is already a slug is kept, and lower-cased becomes the email itself. */
  lemma CleanNameKept(name: string, allowedIPs: string, publicKey: string)
    requires name != "" && CleanSlug(name)
    ensures Slug(name) == name && EmailBase(name, allowedIPs, publicKey) == ToLower(name)
  {
    assert name[0] in name && name[|name| - 1] in name;
    TrimOfTrimmed(name);
    SlugCharsKept(name);
    assert "awg-"[3] == '-' && |"awg-"| == 4;
  }

  /** sanitizeEmail: a lower-case, non-empty email nobody uses yet. */
  method SanitizeEmail(name: string, allowedIPs: string, publicKey: string, used: set<string>) 
    returns (email: string, tries: nat)
    ensures FirstFree(email, EmailBase(name, allowedIPs, publicKey), used, tries)
    ensures email !in used && email != "" && IsLower(email)
  {
    var base := SlugEmail(name);
    if base == "" { base := "awg-" + FirstHost(allowedIPs); }
    if base == "awg-" {
      if |publicKey| >= 8 { base := "awg-" + publicKey[..8]; } else { base := "awg-peer"; }
    }
    assert base != "";
    base := ToLower(base);
    LowerIsLower(base);
    email, tries := Probe(base, used);
    CandidateLower(base, tries);
    CandidateNonEmpty(base, tries);
  }

  /** One imported peer: its name, its addresses, its key, and the email asked for it, if any. */
  datatype ImportedPeer = ImportedPeer(name: string, allowedIPs: string, publicKey: string, email: string)

  function PeerBase(p: ImportedPeer): string {
    EmailBase(if p.email != "" then p.email else p.name, p.allowedIPs, p.publicKey)
  }

  /** Each email is the first one free for its peer. */
  ghost predicate AllocatedAt(peers: seq<ImportedPeer>, reserved: set<string>, emails: seq<string>, i: nat)
    requires |emails| <= |peers| && i < |emails|
  {
    exists k :: FirstFree(emails[i], PeerBase(peers[i]), Lowered(reserved) + Elems(emails[..i]), k)
  }

  ghost predicate Allocated(peers: seq<ImportedPeer>, reserved: set<string>, emails: seq<string>) {
    |emails| <= |peers| && forall i :: 0 <= i < |emails| ==> AllocatedAt(peers, reserved, emails, i)
  }

  lemma AllocatedNext(peers: seq<ImportedPeer>, reserved: set<string>, emails: seq<string>, email: string, k: nat)
    requires Allocated(peers, reserved, emails) && |emails| < |peers|
    requires FirstFree(email, PeerBase(peers[|emails|]), Lowered(reserved) + Elems(emails), k)
    ensures Allocated(peers, reserved, emails + [email])
    ensures Elems(emails + [email]) == Elems(emails) + {email}
  {
    var more := emails + [email];
    forall i | 0 <= i < |more| ensures AllocatedAt(peers, reserved, more, i) {
      if i < |emails| {
        AllocatedStays(peers, reserved, emails, email, i);
      } else {
        assert more[..i] == emails && more[i] == email;
      }
    }
    ElemsSnoc(emails, email);
  }

  lemma AllocatedStays(peers: seq<ImportedPeer>, reserved: set<string>, emails: seq<string>, email: string, i: nat)
    requires i < |emails| < |peers| && AllocatedAt(peers, reserved, emails, i)
    ensures AllocatedAt(peers, reserved, emails + [email], i)
  {
    assert (emails + [email])[..i] == emails[..i] && (emails + [email])[i] == emails[i];
  }

  lemma AllocatedDistinct(peers: seq<ImportedPeer>, reserved: set<string>, emails: seq<string>, i: nat, j: nat)
    requires Allocated(peers, reserved, emails) && i < j < |emails|
    ensures emails[i] != emails[j]
  {
    assert AllocatedAt(peers, reserved, emails, j);
    ElemsHas(emails[..j], i);
  }

  function Lowered(reserved: set<string>): set<string> { set e <- reserved | e != "" :: ToLower(e) }

  /** The email allocation of BuildInbound. No two imported clients share an email, and none takes one that is
      reserved, however either is capitalised. */
  method AllocateEmails(peers: seq<ImportedPeer>, reserved: set<string>) returns (emails: seq<string>)
    ensures |emails| == |peers|
    ensures Allocated(peers, reserved, emails)
    ensures forall i, j :: 0 <= i < j < |emails| ==> ToLower(emails[i]) != ToLower(emails[j])
    ensures forall e, r :: e in emails && r in reserved ==> ToLower(e) != ToLower(r)
    ensures forall e <- emails :: e != "" && IsLower(e)
  {
    var used := Lowered(reserved);
    emails := [];
    for i := 0 to |peers|
      invariant |emails| == i
      invariant used == Lowered(reserved) + Elems(emails)
      invariant Allocated(peers, reserved, emails)
      invariant AllUsable(emails, reserved)
    {
      var p := peers[i];
      var email, tries := SanitizeEmail(if p.email != "" then p.email else p.name, p.allowedIPs, p.publicKey, used);
      AllocatedNext(peers, reserved, emails, email, tries);
      UsableNext(emails, email, reserved);
      used := used + {email};
      emails := emails + [email];
    }
    EmailsApart(peers, reserved, emails);
  }

  predicate Usable(e: string, reserved: set<string>) { e != "" && IsLower(e) && e !in Lowered(reserved) }

  predicate AllUsable(emails: seq<string>, reserved: set<string>) { forall e <- emails :: Usable(e, reserved) }

  lemma UsableNext(emails: seq<string>, email: string, reserved: set<string>)
    requires AllUsable(emails, reserved) && Usable(email, reserved)
    ensures AllUsable(emails + [email], reserved)
  {
  }

  lemma EmailsApart(peers: seq<ImportedPeer>, reserved: set<string>, emails: seq<string>)
    requires Allocated(peers, reserved, emails) && AllUsable(emails, reserved)
    ensures forall e, r :: e in emails && r in reserved ==> ToLower(e) != ToLower(r)
    ensures forall i, j :: 0 <= i < j < |emails| ==> ToLower(emails[i]) != ToLower(emails[j])
  {
    forall e, r | e in emails && r in reserved ensures ToLower(e) != ToLower(r) {
      assert Usable(e, reserved);
      if r != "" {
        assert ToLower(r) in Lowered(reserved);
      } else {
        assert |ToLower(e)| > 0;
      }
    }
    forall i, j | 0 <= i < j < |emails| ensures ToLower(emails[i]) != ToLower(emails[j]) {
      AllocatedDistinct(peers, reserved, emails, i, j);
      assert Usable(emails[i], reserved) && Usable(emails[j], reserved);
    }
  }
}
