/** What assertSpec notices of a changed identity: it compares the texts that fmt.Sprint makes of the
    configured and the stored one (certs/authority.go). */
module SpecDrift {
  import opened Wrappers
  import opened Certificates
  import opened Policy
  import opened Authority

  function Spaces(s: string): nat {
    if s == "" then 0 else Spaces(s[1..]) + if s[0] == ' ' then 1 else 0
  }

  lemma {:induction false} SpacesAdd(a: string, b: string)
    ensures Spaces(a + b) == Spaces(a) + Spaces(b)
  {
    if a == "" {
      assert a + b == b;
    } else {
      SpacesAdd(a[1..], b);
      assert (a + b)[0] == a[0] && (a + b)[1..] == a[1..] + b;
    }
  }

  lemma {:induction false} NoSpaces(s: string)
    ensures Spaces(s) == 0 <==> ' ' !in s
  {
    if s == "" {
    } else {
      NoSpaces(s[1..]);
      assert s == [s[0]] + s[1..];
    }
  }

  lemma FieldThenRest(a: string, rest: string)
    ensures Spaces(a + " " + rest) == Spaces(a) + 1 + Spaces(rest)
  {
    SpacesAdd(a + " ", rest);
    SpacesAdd(a, " ");
    assert " "[1..] == "";
  }

  /** The first word of two equal texts is the same. */
  lemma {:induction false} FirstField(a: string, x: string, b: string, y: string)
    requires ' ' !in a && ' ' !in b && a + " " + x == b + " " + y
    ensures a == b && x == y
  {
    var s := a + " " + x;
    assert s[|a|] == ' ' && s[|b|] == ' ';
    assert forall i :: 0 <= i < |a| ==> s[i] == a[i] && a[i] in a;
    assert forall i :: 0 <= i < |b| ==> s[i] == b[i] && b[i] in b;
    assert |a| == |b|;
    assert a == s[..|a|] && b == s[..|a|];
    assert x == s[|a| + 1..] && y == s[|a| + 1..];
  }

  predicate SpaceFree(i: Identity) {
    && ' ' !in i.organization && ' ' !in i.organizationalUnit && ' ' !in i.country
    && ' ' !in i.province && ' ' !in i.locality && ' ' !in i.commonName
  }

  function Tail(k: nat, i: Identity): string
    requires k <= 5
    decreases 5 - k
  {
    if k == 5 then i.commonName else FieldOf(k, i) + " " + Tail(k + 1, i)
  }

  function FieldOf(k: nat, i: Identity): string
    requires k <= 5
  {
    if k == 0 then i.organization
    else if k == 1 then i.organizationalUnit
    else if k == 2 then i.country
    else if k == 3 then i.province
    else if k == 4 then i.locality
    else i.commonName
  }

  lemma TextIsTail(i: Identity)
    ensures IdentityText(i) == Tail(0, i)
  {
    var t5 := i.commonName;
    var t4 := i.locality + " " + t5;
    var t3 := i.province + " " + t4;
    var t2 := i.country + " " + t3;
    var t1 := i.organizationalUnit + " " + t2;
    assert Tail(4, i) == t4;
    assert Tail(3, i) == t3;
    assert Tail(2, i) == t2;
    assert Tail(1, i) == t1;
    assert IdentityText(i) == i.organization + " " + t1;
  }

  lemma {:induction false} TailSpaces(k: nat, i: Identity)
    requires k <= 5
    ensures Spaces(Tail(k, i)) == 5 - k + SpacesFrom(k, i)
    decreases 5 - k
  {
    if k == 5 {
    } else {
      TailSpaces(k + 1, i);
      FieldThenRest(FieldOf(k, i), Tail(k + 1, i));
    }
  }

  function SpacesFrom(k: nat, i: Identity): nat
    requires k <= 5
    decreases 5 - k
  {
    Spaces(FieldOf(k, i)) + if k == 5 then 0 else SpacesFrom(k + 1, i)
  }

  lemma {:induction false} SameFields(k: nat, a: Identity, b: Identity)
    requires k <= 5 && SpacesFrom(k, a) == 0 && SpacesFrom(k, b) == 0 && Tail(k, a) == Tail(k, b)
    ensures forall j :: k <= j <= 5 ==> FieldOf(j, a) == FieldOf(j, b)
    decreases 5 - k
  {
    if k == 5 {
    } else {
      NoSpaces(FieldOf(k, a));
      NoSpaces(FieldOf(k, b));
      FirstField(FieldOf(k, a), Tail(k + 1, a), FieldOf(k, b), Tail(k + 1, b));
      SameFields(k + 1, a, b);
    }
  }

  lemma {:induction false} SpaceFreeFrom(k: nat, i: Identity)
    requires k <= 5 && SpaceFree(i)
    ensures SpacesFrom(k, i) == 0
    decreases 5 - k
  {
    NoSpaces(FieldOf(k, i));
    if k == 5 {
    } else {
      SpaceFreeFrom(k + 1, i);
    }
  }

  /** Against a stored identity whose fields hold no space, every other identity is noticed. */
  lemma SpaceFreeIsNoticed(stored: Identity, wanted: Identity)
    requires SpaceFree(stored)
    ensures IdentityText(wanted) == IdentityText(stored) <==> wanted == stored
  {
    if IdentityText(wanted) == IdentityText(stored) {
      TextIsTail(stored);
      TextIsTail(wanted);
      TailSpaces(0, stored);
      TailSpaces(0, wanted);
      SpaceFreeFrom(0, stored);
      SameFields(0, wanted, stored);
      assert forall k :: 0 <= k <= 5 ==> FieldOf(k, wanted) == FieldOf(k, stored);
      assert FieldOf(0, wanted) == FieldOf(0, stored) && FieldOf(1, wanted) == FieldOf(1, stored) && FieldOf(2, wanted) == FieldOf(2, stored);
      assert FieldOf(3, wanted) == FieldOf(3, stored) && FieldOf(4, wanted) == FieldOf(4, stored) && FieldOf(5, wanted) == FieldOf(5, stored);
    }
  }

  const STORED := NO_IDENTITY.(organization := "a b", organizationalUnit := "c")
  const WANTED := NO_IDENTITY.(organization := "a", organizationalUnit := "b c")

  /** With a space inside a field a different identity passes: the words moved to the next field. */
  lemma MovedWordIsMissed(s: AuthorityState, cfg: ManagerConfig)
    requires s.spec.identity == STORED && AssertSpec(s, cfg.(identity := Some(STORED))).Ok?
    ensures WANTED != STORED && AssertSpec(s, cfg.(identity := Some(WANTED))).Ok?
  {
    assert "a b" + " " + "c" == "a b c" && "a" + " " + "b c" == "a b c";
    assert IdentityText(STORED) == "a b c" + " " + "" + " " + "" + " " + "" + " " + "";
    assert IdentityText(WANTED) == "a b c" + " " + "" + " " + "" + " " + "" + " " + "";
  }
}
