/** What the parser makes of lines the panel itself never writes: the comments and the extra keys of a peer block,
    lists of resolvers and addresses, and the marks of a version. */
module ConfForeign {
  import opened Text
  import opened ConfModel
  import opened ConfRender
  import opened ConfParse
  import opened ConfRoundTrip

  // ---------------------------------------------------------------- a peer block

  lemma PeerPlainKeys()
    ensures PlainKey("Endpoint") && PlainKey("PersistentKeepalive")
  {
    assert |"Endpoint"| == 8 && |"PersistentKeepalive"| == 19;
  }

  lemma EndpointLine(st: State, v: string)
    requires st.section == "peer"
    ensures ParseLine(st, KvLine("Endpoint", v)) == st.(peer := st.peer.(endpoint := Trim(v)))
  {
    PeerPlainKeys();
    KvParsed(st, "Endpoint", v);
  }

  lemma KeepaliveLine(st: State, v: string)
    requires st.section == "peer"
    ensures ParseLine(st, KvLine("PersistentKeepalive", v)) == st.(peer := st.peer.(keepalive := Trim(v)))
  {
    PeerPlainKeys();
    KvParsed(st, "PersistentKeepalive", v);
  }

  /** A comment as it is written: not blank, and not starting like a comment itself. */
  predicate CommentText(text: string) { text != "" && IsTrimmed(text) && text[0] != '#' && text[0] != ';' }

  lemma CommentTrimmed(text: string)
    requires CommentText(text)
    ensures Trim("# " + text) == "# " + text && TrimLeftSet("# " + text, {'#', ';'}) == " " + text
    ensures Trim(" " + text) == text
  {
    var line := "# " + text;
    assert line[|line| - 1] == text[|text| - 1];
    TrimOfTrimmed(line);
    assert line[1..] == " " + text;
    TrimPadded(" ", text, "");
    assert " " + text + "" == " " + text;
    TrimOfTrimmed(text);
  }

  lemma CommentLine(st: State, text: string)
    requires st.section == "peer" && CommentText(text) && !FoldEq(text, "Managed by x-ui - do not edit")
    ensures ParseLine(st, "# " + text)
         == if "expires=" <= text then
              (var ts := ParseInt(text[8..]); if ts.ok then st.(peer := st.peer.(expiry := ts.value)) else st)
            else if "orig_ips=" <= text then st.(peer := st.peer.(origIPs := Trim(text[9..])))
            else if st.named then st
            else st.(peer := st.peer.(name := text), named := true)
  {
    CommentTrimmed(text);
    assert |"expires="| == 8 && |"orig_ips="| == 9;
  }

  lemma ExpiryTail(digits: string)
    ensures "expires=" <= "expires=" + digits && ("expires=" + digits)[8..] == digits
  {
    assert |"expires="| == 8;
  }

  /** A printed expiry time is read back. */
  lemma ExpiryLine(st: State, n: int64)
    requires st.section == "peer"
    ensures ParseLine(st, "# " + ("expires=" + Itoa(n))) == st.(peer := st.peer.(expiry := n))
  {
    var text := "expires=" + Itoa(n);
    ItoaPlain(n);
    ParseItoa(n);
    ExpiryTail(Itoa(n));
    assert text[0] == 'e' && text[|text| - 1] == Itoa(n)[|Itoa(n)| - 1];
    CommentLine(st, text);
  }

  ghost predicate Within(sub: string, s: string) { exists a: string, b: string :: s == a + sub + b }

  lemma {:induction false} FoundWithin(s: string, sub: string)
    requires Contains(s, sub)
    ensures Within(sub, s)
  {
    if sub <= s {
      assert s == [] + sub + s[|sub|..];
    } else {
      FoundWithin(s[1..], sub);
      var a, b :| s[1..] == a + sub + b;
      assert s == ([s[0]] + a) + sub + b;
    }
  }

  lemma {:induction false} WithinFound(a: string, sub: string, b: string)
    ensures Contains(a + sub + b, sub)
  {
    if a == [] {
      assert a + sub + b == sub + b;
    } else {
      WithinFound(a[1..], sub, b);
      assert (a + sub + b)[1..] == a[1..] + sub + b;
    }
  }

  /** The search behind the suspended mark finds the address anywhere in the list. */
  lemma ContainsMeans(s: string, sub: string)
    ensures Contains(s, sub) <==> Within(sub, s)
  {
    if Contains(s, sub) {
      FoundWithin(s, sub);
    }
    if Within(sub, s) {
      var a, b :| s == a + sub + b;
      WithinFound(a, sub, b);
    }
  }

  // ---------------------------------------------------------------- lists

  lemma FirstOfList(a: string, b: string)
    requires ',' !in a
    ensures ',' in a + [','] + b && Cut(a + [','] + b, ',').0 == a
  {
    CutAt(a, ',', b);
    assert (a + [','] + b)[|a|] == ',';
  }

  /** Of a list of resolvers, or of addresses, the first is kept, without the white space around it. */
  lemma FirstEntryKept(a: string, b: string)
    requires ',' !in a
    ensures Convert(DNS, a + [','] + b) == Txt(Trim(a)) && FirstAddress(a + [','] + b) == Trim(a)
    ensures Convert(DNS, a) == Txt(a) && FirstAddress(a) == a
  {
    FirstOfList(a, b);
  }

  // ---------------------------------------------------------------- versions

  /** Each mark raises the version at least to its own. */
  lemma MarksRaise(f: map<Key, Setting>)
    ensures Get(f, RandomTrailers) == Flag(true) || Get(f, DisableCookies) == Flag(true) ==> DetectVersion(f) == V31
    ensures Get(f, HeaderProtectionKey) != Txt("") ==> Rank(DetectVersion(f)) >= 2
    ensures Get(f, S3) != Num(0) || Get(f, S4) != Num(0) ==> Rank(DetectVersion(f)) >= 1
  {
  }

  lemma TimersRaise(f: map<Key, Setting>, k: Key, t: string)
    requires Get(f, k) == Txt(t) && !IsZeroTimer(t)
    requires k in {ContentPaddingAddition, RekeyAfterTime, RekeyTimeout, RejectAfterTime, KeepaliveTimeout,
                   MaxHandshakeAttempts}
    ensures Rank(DetectVersion(f)) >= 2
  {
  }

  lemma TextsRaise(f: map<Key, Setting>, k: Key, t: string)
    requires Get(f, k) == Txt(t)
    requires (k in {I1, I2, I3, I4, I5} && t != "") || (k in {H1, H2, H3, H4} && '-' in t)
    ensures Rank(DetectVersion(f)) >= 1
  {
  }
}
