/** When loose certificates make a chain and how it is parted, said of their fields and of what
    verifies under what (certs/bundle.go). */
module BundleMeaning {
  import opened Wrappers
  import opened Certificates
  import opened Bundles
  import opened BundleProperties

  /** The parent's name is the child's issuer and its key verifies the child. */
  predicate Signs(v: Verifies, parent: Certificate, child: Certificate) {
    parent != child && parent.subject == child.issuer && v(child, parent)
  }

  predicate SelfSigned(v: Verifies, c: Certificate) {
    c.isCA && c.issuer == c.subject && v(c, c)
  }

  /** The certificate at i is signed by the one after it, which may sign certificates. */
  predicate SignedByNext(v: Verifies, row: seq<Certificate>, i: int)
    requires 0 <= i < |row| - 1
  {
    var child, parent := row[i], row[i + 1];
    && Signs(v, parent, child) && !SelfSigned(v, child)
    && parent.isCA && parent.basicConstraintsValid && CertSign in parent.usage
  }

  /** Nothing but the certificate after it signs the one at i, unless that is self-signed. */
  predicate SignedByNoOther(v: Verifies, certs: seq<Certificate>, row: seq<Certificate>, i: int)
    requires 0 <= i < |row|
  {
    SelfSigned(v, row[i]) || forall c :: c in certs && Signs(v, c, row[i]) ==> i < |row| - 1 && c == row[i + 1]
  }

  /** All certificates in a row: each is signed by the next, which may sign certificates, and by no
      other; none but the last is self-signed, and nothing signs the last unless it is. */
  ghost predicate InRow(v: Verifies, certs: seq<Certificate>, row: seq<Certificate>) {
    && row != [] && multiset(row) == multiset(certs)
    && (forall i :: 0 <= i < |row| - 1 ==> SignedByNext(v, row, i))
    && (forall i :: 0 <= i < |row| ==> SignedByNoOther(v, certs, row, i))
  }

  lemma RowIsPath(v: Verifies, certs: seq<Certificate>, row: seq<Certificate>)
    ensures InRow(v, certs, row) <==> row != [] && IsPath(v, certs, row) && CAPath(row)
  {
    if InRow(v, certs, row) {
      RowMakesPath(v, certs, row);
    }
    if row != [] && IsPath(v, certs, row) && CAPath(row) {
      PathMakesRow(v, certs, row);
    }
  }

  lemma RowMakesPath(v: Verifies, certs: seq<Certificate>, row: seq<Certificate>)
    requires InRow(v, certs, row)
    ensures IsPath(v, certs, row) && CAPath(row)
  {
    SameMembers(row, certs);
    forall i, p | 0 <= i < |row|
      ensures Parent(v, certs, row[i], p) <==> i + 1 < |row| && p == row[i + 1]
    {
      assert SignedByNoOther(v, certs, row, i);
      if i + 1 < |row| {
        assert SignedByNext(v, row, i);
        assert row[i + 1] in certs;
      }
      if Parent(v, certs, row[i], p) {
        assert Signs(v, p, row[i]);
      }
    }
    forall i | 0 < i < |row|
      ensures CACapable(row[i])
    {
      assert SignedByNext(v, row, i - 1);
    }
  }

  lemma PathMakesRow(v: Verifies, certs: seq<Certificate>, row: seq<Certificate>)
    requires row != [] && IsPath(v, certs, row) && CAPath(row)
    ensures InRow(v, certs, row)
  {
    forall i | 0 <= i < |row| - 1
      ensures SignedByNext(v, row, i)
    {
      assert Parent(v, certs, row[i], row[i + 1]);
      assert CACapable(row[i + 1]);
    }
    forall i | 0 <= i < |row|
      ensures SignedByNoOther(v, certs, row, i)
    {
      if !SelfSigned(v, row[i]) {
        forall c | c in certs && Signs(v, c, row[i])
          ensures i < |row| - 1 && c == row[i + 1]
        {
          assert Parent(v, certs, row[i], c);
        }
      }
    }
  }

  /** The private key is that of the first certificate, if that is no CA. */
  predicate KeyOfFirst(row: seq<Certificate>, key: Option<nat>) {
    key.Some? && row != [] && !row[0].isCA ==> key.value == row[0].publicKey
  }

  /** Every certificate is there, and no two are the same. */
  predicate AllDifferent(certs: seq<Option<Certificate>>) {
    && (forall i :: 0 <= i < |certs| ==> certs[i].Some?)
    && (forall i, j :: 0 <= i < |certs| && 0 <= j < |certs| && i != j ==> certs[i].value.raw != certs[j].value.raw)
  }

  lemma CleanExactly(certs: seq<Option<Certificate>>)
    ensures Clean(certs) <==> AllDifferent(certs)
  {
  }

  /** The parts of a row: a leaf is the first certificate that is no CA, a root the last that is
      self-signed, and the intermediates are what is left. */
  predicate Parted(v: Verifies, b: Bundle, row: seq<Certificate>, key: Option<nat>)
    requires row != []
  {
    var from := if row[0].isCA then 0 else 1;
    var to := if SelfSigned(v, row[|row| - 1]) then |row| - 1 else |row|;
    && b.certs == row && b.key == key
    && b.leaf == (if row[0].isCA then None else Some(row[0]))
    && b.root == (if SelfSigned(v, row[|row| - 1]) then Some(row[|row| - 1]) else None)
    && b.intermediates == if from <= to then row[from..to] else []
  }

  lemma AssembledParted(v: Verifies, row: seq<Certificate>, key: Option<nat>)
    requires row != []
    ensures Parted(v, Assemble(v, row, key), row, key)
    ensures KeyFits(Assemble(v, row, key)) <==> KeyOfFirst(row, key)
  {
  }

  /** Loose certificates are taken exactly when there are none, or they are all there, all different
      and in one row, and a key belongs to the leaf; the bundle then has that row and its parts. */
  lemma BundleExactly(v: Verifies, certs: seq<Option<Certificate>>, key: Option<nat>)
    ensures var r := Normalized(v, certs, key);
            && (r.Ok? <==> certs == []
                           || (AllDifferent(certs) && exists row :: InRow(v, Values(certs), row) && KeyOfFirst(row, key)))
            && (r.Ok? && certs == [] ==> r.value == Bundle([], None, [], None, key))
            && (r.Ok? && certs != [] ==>
                  && AllDifferent(certs) && r.value.certs != []
                  && InRow(v, Values(certs), r.value.certs) && KeyOfFirst(r.value.certs, key)
                  && Parted(v, r.value, r.value.certs, key))
  {
    if certs == [] {
      EmptyInput(v, key);
    } else {
      CleanExactly(certs);
      BundleOfSome(v, certs, key);
    }
  }

  lemma BundleOfSome(v: Verifies, certs: seq<Option<Certificate>>, key: Option<nat>)
    requires certs != []
    ensures var r := Normalized(v, certs, key);
            && (r.Ok? <==> Clean(certs) && exists row :: InRow(v, Values(certs), row) && KeyOfFirst(row, key))
            && (r.Ok? ==>
                  && Clean(certs) && r.value.certs != []
                  && InRow(v, Values(certs), r.value.certs) && KeyOfFirst(r.value.certs, key)
                  && Parted(v, r.value, r.value.certs, key))
  {
    hide Normalized, IsPath, CAPath, InRow, Parted, KeyFits, KeyOfFirst, Assemble;
    NormalizedMeaning(v, certs, key);
    if Normalized(v, certs, key).Ok? {
      NormalizedResult(v, certs, key);
      var b := Normalized(v, certs, key).value;
      RowIsPath(v, Values(certs), b.certs);
      AssembledParted(v, b.certs, key);
    }
    if Clean(certs) {
      if row :| InRow(v, Values(certs), row) && KeyOfFirst(row, key) {
        RowIsPath(v, Values(certs), row);
        AssembledParted(v, row, key);
        assert Acceptable(v, Values(certs), row, key);
      }
    }
  }

  /** Some certificate is signed by one that may not sign. */
  ghost predicate BadSigner(v: Verifies, certs: seq<Certificate>) {
    exists c, p :: c in certs && p in certs && !SelfSigned(v, c) && Signs(v, p, c)
      && !(p.isCA && p.basicConstraintsValid && CertSign in p.usage)
  }

  lemma {:induction false} LinkErrors(v: Verifies, certs: seq<Certificate>, k: nat)
    requires k <= |certs| && CheckLinks(v, certs, k).Err?
    ensures CheckLinks(v, certs, k).error in {Conflict, Corrupt}
    ensures CheckLinks(v, certs, k).error == Corrupt ==> BadSigner(v, certs)
  {
    if CheckLinks(v, certs, k - 1).Err? {
      LinkErrors(v, certs, k - 1);
    } else {
      var c := certs[k - 1];
      assert CheckLink(v, certs, c).Err?;
      if CheckLink(v, certs, c).error == Corrupt {
        var p :| Parent(v, certs, c, p) && !CACapable(p);
        assert c in certs && p in certs && !SelfSigned(v, c) && Signs(v, p, c);
      }
    }
  }

  lemma {:induction false} InputErrors(certs: seq<Option<Certificate>>)
    requires CheckInputs(certs).Err?
    ensures exists i :: 0 <= i < |certs| && AllDifferent(certs[..i]) && !AllDifferent(certs[..i + 1])
              && CheckInputs(certs).error == if certs[i].None? then Corrupt else Conflict
  {
    var init, n := certs[..|certs| - 1], |certs| - 1;
    if CheckInputs(init).Err? {
      InputErrors(init);
      var i :| 0 <= i < |init| && AllDifferent(init[..i]) && !AllDifferent(init[..i + 1])
        && CheckInputs(init).error == if init[i].None? then Corrupt else Conflict;
      assert init[..i] == certs[..i] && init[..i + 1] == certs[..i + 1] && init[i] == certs[i];
    } else {
      CleanExactly(init);
      CleanExactly(certs);
      assert certs[..n] == init && certs[..n + 1] == certs;
    }
  }

  /** A nil among the certificates is corruption and a repeated one a conflict, whichever comes first;
      a key that is not the leaf's is invalid; a signer that may not sign is corruption; and whatever
      else does not make one row is a conflict. */
  lemma BundleErrors(v: Verifies, certs: seq<Option<Certificate>>, key: Option<nat>)
    requires Normalized(v, certs, key).Err?
    ensures var e := Normalized(v, certs, key).error;
            if !AllDifferent(certs) then
              exists i :: 0 <= i < |certs| && AllDifferent(certs[..i]) && !AllDifferent(certs[..i + 1])
                && e == if certs[i].None? then Corrupt else Conflict
            else
              && (e == Validation <==> exists row :: InRow(v, Values(certs), row) && !KeyOfFirst(row, key))
              && e in {Validation, Conflict, Corrupt}
              && (e == Corrupt ==> BadSigner(v, Values(certs)))
  {
    CleanExactly(certs);
    if !Clean(certs) {
      InputErrors(certs);
    } else {
      RefusedRow(v, certs, key);
    }
  }

  lemma RefusedRow(v: Verifies, certs: seq<Option<Certificate>>, key: Option<nat>)
    requires Clean(certs) && Normalized(v, certs, key).Err?
    ensures var e := Normalized(v, certs, key).error;
            && (e == Validation <==> exists row :: InRow(v, Values(certs), row) && !KeyOfFirst(row, key))
            && e in {Validation, Conflict, Corrupt}
            && (e == Corrupt ==> BadSigner(v, Values(certs)))
  {
    hide IsPath, CAPath, InRow, KeyFits, KeyOfFirst, Assemble, CheckLinks, BadSigner;
    var cs := Values(certs);
    if CheckLinks(v, cs, |cs|).Err? {
      LinkErrors(v, cs, |cs|);
    }
    forall row | row != []
      ensures InRow(v, cs, row) <==> IsPath(v, cs, row) && CAPath(row)
      ensures IsPath(v, cs, row) ==> (CheckLinks(v, cs, |cs|).Ok? <==> CAPath(row))
      ensures KeyFits(Assemble(v, row, key)) <==> KeyOfFirst(row, key)
    {
      RowIsPath(v, cs, row);
      AssembledParted(v, row, key);
      if IsPath(v, cs, row) {
        PathLinks(v, cs, row);
      }
    }
    forall row | InRow(v, cs, row)
      ensures row != []
    {
      RowNotEmpty(v, cs, row);
    }
    forall p, q | IsPath(v, cs, p) && IsPath(v, cs, q)
      ensures p == q && p != []
    {
      OnePath(v, certs, p, q);
    }
  }

  lemma RowNotEmpty(v: Verifies, certs: seq<Certificate>, row: seq<Certificate>)
    requires InRow(v, certs, row)
    ensures row != []
  {
  }

  lemma OnePath(v: Verifies, certs: seq<Option<Certificate>>, p: seq<Certificate>, q: seq<Certificate>)
    requires Clean(certs) && certs != [] && IsPath(v, Values(certs), p) && IsPath(v, Values(certs), q)
    ensures p == q && p != []
  {
    PathUnique(v, Values(certs), p, q);
    PathNotEmpty(v, Values(certs), p);
  }
}
