/** The repair of tunnel fields a past update overwrote (internal/database/repair_tunnel_fields.go). */
module TunnelRepair {
  import opened Text

  datatype Email = Email(text: string)

  datatype Field = Priv | Pub | Psk | Allowed

  datatype Fields = Fields(priv: string, pub: string, psk: string, allowed: string)

  const BLANK := Fields("", "", "", "")

  function Get(f: Fields, x: Field): string {
    match x case Priv => f.priv case Pub => f.pub case Psk => f.psk case Allowed => f.allowed
  }

  predicate IsEmpty(f: Fields) { f.priv == "" && f.pub == "" && f.psk == "" && f.allowed == "" }

  /** A client entry of an inbound, as tunnelFieldsOf reads it. */
  datatype Entry = Entry(email: Email, fields: Fields)

  datatype Inbound = Inbound(tunnel: bool, entries: seq<Entry>)

  predicate Counts(e: Entry) { e.email.text != "" && !IsEmpty(e.fields) }

  function Filtered(entries: seq<Entry>): seq<Entry> {
    if entries == [] then []
    else
      var before := Filtered(entries[..|entries| - 1]);
      if Counts(entries[|entries| - 1]) then before + [entries[|entries| - 1]] else before
  }

  /** The entries that count, of the tunnel inbounds or of the others, in order. */
  function Collected(inbounds: seq<Inbound>, tunnel: bool): seq<Entry> {
    if inbounds == [] then []
    else
      var ib := inbounds[|inbounds| - 1];
      Collected(inbounds[..|inbounds| - 1], tunnel) + (if ib.tunnel == tunnel then Filtered(ib.entries) else [])
  }

  /** What the first entry for an email says. */
  function First(es: seq<Entry>, e: Email): Option<Fields> {
    if es == [] then None
    else
      var before := First(es[..|es| - 1], e);
      if before.Some? then before
      else if es[|es| - 1].email == e then Some(es[|es| - 1].fields) else None
  }

  /** Two entries for the email say different things about the field. */
  ghost predicate Disagree(es: seq<Entry>, e: Email, x: Field) {
    exists i, j :: 0 <= i < |es| && 0 <= j < |es| && es[i].email == e && es[j].email == e
                   && Get(es[i].fields, x) != Get(es[j].fields, x)
  }

  ghost predicate DiffersFromFirst(es: seq<Entry>, e: Email, x: Field) {
    exists i :: 0 <= i < |es| && es[i].email == e
                && First(es, e).Some? && Get(es[i].fields, x) != Get(First(es, e).value, x)
  }

  lemma {:induction false} FirstMeans(es: seq<Entry>, e: Email)
    ensures First(es, e).Some? <==> exists i :: 0 <= i < |es| && es[i].email == e
    ensures First(es, e).Some? ==> exists i :: 0 <= i < |es| && es[i].email == e && es[i].fields == First(es, e).value
  {
    if es != [] {
      var n := |es| - 1;
      FirstMeans(es[..n], e);
      if First(es[..n], e).Some? {
        var i :| 0 <= i < n && es[..n][i].email == e && es[..n][i].fields == First(es[..n], e).value;
        assert es[i].email == e && es[i].fields == First(es, e).value;
      } else {
        forall i | 0 <= i < n ensures es[i].email != e {
          assert es[..n][i].email != e;
        }
      }
    }
  }

  /** Comparing with the first entry finds every disagreement. */
  lemma DisagreeIffDiffers(es: seq<Entry>, e: Email, x: Field)
    ensures Disagree(es, e, x) <==> DiffersFromFirst(es, e, x)
  {
    FirstMeans(es, e);
    if DiffersFromFirst(es, e, x) {
      var i :| 0 <= i < |es| && es[i].email == e && Get(es[i].fields, x) != Get(First(es, e).value, x);
      var j :| 0 <= j < |es| && es[j].email == e && es[j].fields == First(es, e).value;
      assert Disagree(es, e, x);
    }
    if Disagree(es, e, x) {
      var i, j :| 0 <= i < |es| && 0 <= j < |es| && es[i].email == e && es[j].email == e
                  && Get(es[i].fields, x) != Get(es[j].fields, x);
      assert Get(es[i].fields, x) != Get(First(es, e).value, x) || Get(es[j].fields, x) != Get(First(es, e).value, x);
    }
  }

  // ---------------------------------------------------------------- the two maps

  predicate Clash(conflict: map<Email, Fields>, e: Email, x: Field) { e in conflict && Get(conflict[e], x) != "" }

  ghost predicate Truthful(truth: map<Email, Fields>, conflict: map<Email, Fields>, done: seq<Entry>) {
    && (forall e :: e in truth <==> First(done, e).Some?)
    && (forall e <- truth :: Some(truth[e]) == First(done, e))
    && (forall e, x :: Clash(conflict, e, x) <==> DiffersFromFirst(done, e, x))
  }

  function Marked(c: Fields, seen: Fields, f: Fields): Fields {
    Fields(if seen.priv != f.priv then "x" else c.priv, if seen.pub != f.pub then "x" else c.pub,
           if seen.psk != f.psk then "x" else c.psk, if seen.allowed != f.allowed then "x" else c.allowed)
  }

  lemma MarkedMeans(c: Fields, seen: Fields, f: Fields, x: Field)
    ensures Get(Marked(c, seen, f), x) != "" <==> Get(c, x) != "" || Get(seen, x) != Get(f, x)
  {
  }

  lemma FirstSnoc(done: seq<Entry>, n: Entry, e: Email)
    ensures First(done + [n], e) == if First(done, e).Some? then First(done, e)
                                    else if n.email == e then Some(n.fields) else None
  {
    assert (done + [n])[..|done|] == done;
  }

  lemma DiffersSnoc(done: seq<Entry>, n: Entry, e: Email, x: Field)
    ensures DiffersFromFirst(done + [n], e, x) <==>
              DiffersFromFirst(done, e, x)
              || (First(done, e).Some? && n.email == e && Get(n.fields, x) != Get(First(done, e).value, x))
  {
    var more := done + [n];
    FirstSnoc(done, n, e);
    FirstMeans(done, e);
    if DiffersFromFirst(done, e, x) {
      var i :| 0 <= i < |done| && done[i].email == e && Get(done[i].fields, x) != Get(First(done, e).value, x);
      assert more[i].email == e && Get(more[i].fields, x) != Get(First(more, e).value, x);
    }
    if First(done, e).Some? && n.email == e && Get(n.fields, x) != Get(First(done, e).value, x) {
      assert more[|done|] == n;
      assert Get(more[|done|].fields, x) != Get(First(more, e).value, x);
    }
    if DiffersFromFirst(more, e, x) {
      var i :| 0 <= i < |more| && more[i].email == e && Get(more[i].fields, x) != Get(First(more, e).value, x);
      if i < |done| { assert done[i] == more[i]; }
    }
  }

  /** One more entry of a tunnel inbound. */
  method AddTruth(truth0: map<Email, Fields>, conflict0: map<Email, Fields>, n: Entry, ghost done: seq<Entry>)
    returns (truth: map<Email, Fields>, conflict: map<Email, Fields>)
    requires Truthful(truth0, conflict0, done)
    ensures Truthful(truth, conflict, done + [n])
  {
    truth, conflict := truth0, conflict0;
    if n.email !in truth {
      truth := truth[n.email := n.fields];
    } else {
      var seen := truth[n.email];
      var c := if n.email in conflict then conflict[n.email] else BLANK;
      if seen.priv != n.fields.priv { c := c.(priv := "x"); }
      if seen.pub != n.fields.pub { c := c.(pub := "x"); }
      if seen.psk != n.fields.psk { c := c.(psk := "x"); }
      if seen.allowed != n.fields.allowed { c := c.(allowed := "x"); }
      conflict := conflict[n.email := c];
      assert c == Marked(if n.email in conflict0 then conflict0[n.email] else BLANK, seen, n.fields);
    }
    AddTruthful(truth0, conflict0, n, done, truth, conflict);
  }

  lemma AddTruthful(truth0: map<Email, Fields>, conflict0: map<Email, Fields>, n: Entry, done: seq<Entry>,
                    truth: map<Email, Fields>, conflict: map<Email, Fields>)
    requires Truthful(truth0, conflict0, done)
    requires n.email !in truth0 ==> truth == truth0[n.email := n.fields] && conflict == conflict0
    requires n.email in truth0 ==>
               truth == truth0
               && conflict == conflict0[n.email := Marked(if n.email in conflict0 then conflict0[n.email] else BLANK,
                                                          truth0[n.email], n.fields)]
    ensures Truthful(truth, conflict, done + [n])
  {
    forall e ensures e in truth <==> First(done + [n], e).Some? {
      FirstSnoc(done, n, e);
    }
    forall e | e in truth ensures Some(truth[e]) == First(done + [n], e) {
      FirstSnoc(done, n, e);
    }
    forall e, x ensures Clash(conflict, e, x) <==> DiffersFromFirst(done + [n], e, x) {
      DiffersSnoc(done, n, e, x);
      assert Clash(conflict0, e, x) <==> DiffersFromFirst(done, e, x);
      if e == n.email && e in truth0 {
        MarkedMeans(if e in conflict0 then conflict0[e] else BLANK, truth0[e], n.fields, x);
      }
    }
  }

  lemma CollectedNext(inbounds: seq<Inbound>, i: nat, tunnel: bool)
    requires i < |inbounds|
    ensures Collected(inbounds[..i + 1], tunnel)
         == Collected(inbounds[..i], tunnel) + (if inbounds[i].tunnel == tunnel then Filtered(inbounds[i].entries) else [])
  {
    assert inbounds[..i + 1][..i] == inbounds[..i];
  }

  lemma FilteredNext(entries: seq<Entry>, j: nat, before: seq<Entry>)
    requires j < |entries|
    ensures before + Filtered(entries[..j + 1])
         == if Counts(entries[j]) then (before + Filtered(entries[..j])) + [entries[j]] else before + Filtered(entries[..j])
  {
    assert entries[..j + 1][..j] == entries[..j];
  }

  /** tunnelTruthByEmail: a conflict is flagged on a field exactly when two non-empty tunnel entries disagree on it. */
  method TunnelTruth(inbounds: seq<Inbound>) returns (truth: map<Email, Fields>, conflict: map<Email, Fields>)
    ensures Truthful(truth, conflict, Collected(inbounds, true))
    ensures forall e, x :: Clash(conflict, e, x) <==> Disagree(Collected(inbounds, true), e, x)
  {
    truth, conflict := map[], map[];
    for i := 0 to |inbounds|
      invariant Truthful(truth, conflict, Collected(inbounds[..i], true))
    {
      CollectedNext(inbounds, i, true);
      ghost var before := Collected(inbounds[..i], true);
      if !inbounds[i].tunnel {
        assert before + [] == before;
        continue;
      }
      var entries := inbounds[i].entries;
      assert before + Filtered(entries[..0]) == before;
      for j := 0 to |entries|
        invariant Truthful(truth, conflict, before + Filtered(entries[..j]))
      {
        FilteredNext(entries, j, before);
        if entries[j].email.text == "" || IsEmpty(entries[j].fields) { continue; }
        truth, conflict := AddTruth(truth, conflict, entries[j], before + Filtered(entries[..j]));
      }
      assert entries[..|entries|] == entries;
    }
    assert inbounds[..|inbounds|] == inbounds;
    forall e, x ensures Clash(conflict, e, x) <==> Disagree(Collected(inbounds, true), e, x) {
      DisagreeIffDiffers(Collected(inbounds, true), e, x);
    }
  }

  /** The copies of an email among these entries, in order. */
  function CopiesOf(es: seq<Entry>, e: Email): seq<Fields> {
    if es == [] then []
    else CopiesOf(es[..|es| - 1], e) + (if es[|es| - 1].email == e then [es[|es| - 1].fields] else [])
  }

  function At(m: map<Email, seq<Fields>>, e: Email): seq<Fields> { if e in m then m[e] else [] }

  lemma CopiesSnoc(es: seq<Entry>, n: Entry, e: Email)
    ensures CopiesOf(es + [n], e) == CopiesOf(es, e) + (if n.email == e then [n.fields] else [])
  {
    assert (es + [n])[..|es|] == es;
  }

  ghost predicate Copies(m: map<Email, seq<Fields>>, es: seq<Entry>) { forall e :: At(m, e) == CopiesOf(es, e) }

  /** keylessCopiesByEmail. */
  method KeylessCopies(inbounds: seq<Inbound>) returns (out: map<Email, seq<Fields>>)
    ensures Copies(out, Collected(inbounds, false))
  {
    out := map[];
    for i := 0 to |inbounds|
      invariant Copies(out, Collected(inbounds[..i], false))
    {
      CollectedNext(inbounds, i, false);
      ghost var before := Collected(inbounds[..i], false);
      if inbounds[i].tunnel {
        assert before + [] == before;
        continue;
      }
      out := AddCopies(inbounds[i].entries, out, before);
    }
    assert inbounds[..|inbounds|] == inbounds;
  }

  /** The entries of one keyless inbound. */
  method AddCopies(entries: seq<Entry>, out0: map<Email, seq<Fields>>, ghost before: seq<Entry>)
    returns (out: map<Email, seq<Fields>>)
    requires Copies(out0, before)
    ensures Copies(out, before + Filtered(entries))
  {
    out := out0;
    ghost var seen := before;
    assert before + Filtered(entries[..0]) == before;
    for j := 0 to |entries|
      invariant seen == before + Filtered(entries[..j]) && Copies(out, seen)
    {
      FilteredNext(entries, j, before);
      var n := entries[j];
      if n.email.text == "" || IsEmpty(n.fields) { continue; }
      CopiesNext(out, seen, n);
      out := out[n.email := At(out, n.email) + [n.fields]];
      seen := seen + [n];
    }
    assert entries[..|entries|] == entries;
  }

  lemma CopiesNext(m: map<Email, seq<Fields>>, es: seq<Entry>, n: Entry)
    requires Copies(m, es)
    ensures Copies(m[n.email := At(m, n.email) + [n.fields]], es + [n])
  {
    var more := m[n.email := At(m, n.email) + [n.fields]];
    forall e ensures At(more, e) == CopiesOf(es + [n], e) {
      CopiesSnoc(es, n, e);
      assert At(m, e) == CopiesOf(es, e);
    }
  }

  // ---------------------------------------------------------------- restoring

  ghost predicate Copied(copies: seq<Fields>, x: Field, cur: string) {
    cur != "" && exists i :: 0 <= i < |copies| && Get(copies[i], x) == cur
  }

  ghost function Repaired(cur: string, want: string, clash: string, copies: seq<Fields>, x: Field): string {
    if want != "" && clash == "" && Copied(copies, x, cur) then want else cur
  }

  /** The repair closure of restoreTunnelFields. */
  method RepairField(cur: string, want: string, clash: string, copies: seq<Fields>, x: Field)
    returns (next: string, changed: nat)
    ensures next == Repaired(cur, want, clash, copies, x)
    ensures changed == if next != cur then 1 else 0
  {
    if want == "" || clash != "" || cur == want { return cur, 0; }
    for i := 0 to |copies|
      invariant forall k :: 0 <= k < i ==> Get(copies[k], x) == "" || Get(copies[k], x) != cur
    {
      var v := Get(copies[i], x);
      if v != "" && v == cur { return want, 1; }
    }
    next, changed := cur, 0;
  }

  /** A stored client: its email and its four tunnel fields. */
  datatype Record = Record(email: Email, fields: Fields)

  /** The field was overwritten: every tunnel entry for the email agrees on one non-empty value, and the record holds
      what a keyless entry for the email holds. */
  ghost predicate Overwritten(inbounds: seq<Inbound>, r: Record, x: Field) {
    var tunnel := Collected(inbounds, true);
    && First(tunnel, r.email).Some? && Get(First(tunnel, r.email).value, x) != "" && !Disagree(tunnel, r.email, x)
    && Copied(CopiesOf(Collected(inbounds, false), r.email), x, Get(r.fields, x))
  }

  ghost function Restored(inbounds: seq<Inbound>, r: Record, x: Field): string {
    if Overwritten(inbounds, r, x) then Get(First(Collected(inbounds, true), r.email).value, x) else Get(r.fields, x)
  }

  /** Every field is what it was, or the agreed truth if it was overwritten. */
  ghost predicate RestoredAll(inbounds: seq<Inbound>, r: Record, s: Record) {
    s.email == r.email && forall x :: Get(s.fields, x) == Restored(inbounds, r, x)
  }

  /** restoreTunnelFields, for a record whose email the tunnel inbounds know. */
  method RestoreTunnelFields(inbounds: seq<Inbound>, r: Record, truth: map<Email, Fields>, conflict: map<Email, Fields>,
                             keyless: map<Email, seq<Fields>>) returns (s: Record, changed: nat)
    requires Truthful(truth, conflict, Collected(inbounds, true)) && Copies(keyless, Collected(inbounds, false))
    requires r.email in truth
    ensures RestoredAll(inbounds, r, s) && (changed > 0 <==> s != r)
  {
    var t := truth[r.email];
    var c := if r.email in conflict then conflict[r.email] else BLANK;
    var fields: Fields;
    fields, changed := RepairFields(r.fields, t, c, At(keyless, r.email));
    s := r.(fields := fields);
    forall x ensures Get(s.fields, x) == Restored(inbounds, r, x) {
      RestoredIs(inbounds, r, truth, conflict, keyless, x);
    }
  }

  method RepairFields(f: Fields, t: Fields, c: Fields, copies: seq<Fields>) returns (g: Fields, changed: nat)
    ensures forall x :: Get(g, x) == Repaired(Get(f, x), Get(t, x), Get(c, x), copies, x)
    ensures changed > 0 <==> g != f
  {
    var priv, n1 := RepairField(f.priv, t.priv, c.priv, copies, Priv);
    var pub, n2 := RepairField(f.pub, t.pub, c.pub, copies, Pub);
    var psk, n3 := RepairField(f.psk, t.psk, c.psk, copies, Psk);
    var allowed, n4 := RepairField(f.allowed, t.allowed, c.allowed, copies, Allowed);
    g, changed := Fields(priv, pub, psk, allowed), n1 + n2 + n3 + n4;
  }

  lemma RestoredIs(inbounds: seq<Inbound>, r: Record, truth: map<Email, Fields>, conflict: map<Email, Fields>,
                   keyless: map<Email, seq<Fields>>, x: Field)
    requires Truthful(truth, conflict, Collected(inbounds, true)) && Copies(keyless, Collected(inbounds, false))
    requires r.email in truth
    ensures var c := if r.email in conflict then conflict[r.email] else BLANK;
            Restored(inbounds, r, x)
            == Repaired(Get(r.fields, x), Get(truth[r.email], x), Get(c, x), At(keyless, r.email), x)
  {
    DisagreeIffDiffers(Collected(inbounds, true), r.email, x);
    assert Clash(conflict, r.email, x) <==> DiffersFromFirst(Collected(inbounds, true), r.email, x);
    assert At(keyless, r.email) == CopiesOf(Collected(inbounds, false), r.email);
  }

  /** repairClobberedTunnelFields, over the records in place. */
  method RepairRecords(inbounds: seq<Inbound>, records: array<Record>)
    modifies records
    ensures forall i :: 0 <= i < records.Length ==> RestoredAll(inbounds, old(records[i]), records[i])
  {
    var truth, conflict := TunnelTruth(inbounds);
    var keyless := KeylessCopies(inbounds);
    for i := 0 to records.Length
      invariant forall k :: 0 <= k < i ==> RestoredAll(inbounds, old(records[k]), records[k])
      invariant forall k :: i <= k < records.Length ==> records[k] == old(records[k])
    {
      if records[i].email !in truth { continue; }
      var s, n := RestoreTunnelFields(inbounds, records[i], truth, conflict, keyless);
      if n > 0 { records[i] := s; }
    }
  }

  // ---------------------------------------------------------------- what the repair means

  /** A field changes only to a non-empty value every tunnel entry for the email holds, and only from a value a keyless
      entry for the email holds. */
  lemma ChangesOnlyToTruth(inbounds: seq<Inbound>, r: Record, s: Record, x: Field)
    requires RestoredAll(inbounds, r, s) && Get(s.fields, x) != Get(r.fields, x)
    ensures Get(s.fields, x) != ""
    ensures First(Collected(inbounds, true), r.email).Some?
    ensures var es := Collected(inbounds, true);
            forall i :: 0 <= i < |es| && es[i].email == r.email ==> Get(es[i].fields, x) == Get(s.fields, x)
    ensures Copied(CopiesOf(Collected(inbounds, false), r.email), x, Get(r.fields, x))
  {
    var es := Collected(inbounds, true);
    assert Get(s.fields, x) == Restored(inbounds, r, x);
    assert Overwritten(inbounds, r, x);
    DisagreeIffDiffers(es, r.email, x);
    forall i | 0 <= i < |es| && es[i].email == r.email ensures Get(es[i].fields, x) == Get(s.fields, x) {
      assert Get(es[i].fields, x) != Get(First(es, r.email).value, x) ==> DiffersFromFirst(es, r.email, x);
    }
  }

  /** Repairing twice is repairing once. */
  lemma RepairIdempotent(inbounds: seq<Inbound>, r: Record, s: Record, t: Record)
    requires RestoredAll(inbounds, r, s) && RestoredAll(inbounds, s, t)
    ensures t == s
  {
    forall x ensures Get(t.fields, x) == Get(s.fields, x) {
      assert Get(s.fields, x) == Restored(inbounds, r, x) && Get(t.fields, x) == Restored(inbounds, s, x);
    }
    SameFields(t.fields, s.fields);
  }

  lemma SameFields(a: Fields, b: Fields)
    requires forall x :: Get(a, x) == Get(b, x)
    ensures a == b
  {
    assert Get(a, Priv) == Get(b, Priv) && Get(a, Pub) == Get(b, Pub);
    assert Get(a, Psk) == Get(b, Psk) && Get(a, Allowed) == Get(b, Allowed);
  }
}
