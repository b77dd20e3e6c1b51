/** Model/Group.js: a chat group, whose member e-mails the schema trims and lower-cases
    whenever they are set. */
module GroupModel {
  import opened Http
  import opened Text
  import VehicleModel

  datatype Group = Group(name: string, members: seq<string>)

  /** The schema's setters on a member string: `trim`, then `lowercase`. */
  function NormalizeMember(m: string): string {
    Lower(Trim(m))
  }

  /** Lower-casing maps whitespace to whitespace and nothing else to it. */
  lemma LowerCharSpace(c: char)
    ensures IsSpace(LowerChar(c)) == IsSpace(c)
  {
  }

  lemma {:induction false} LowerTrimStart(s: string)
    ensures Lower(TrimStart(s)) == TrimStart(Lower(s))
  {
    if s != [] {
      var l := Lower(s);
      LowerCharSpace(s[0]);
      assert l == [LowerChar(s[0])] + Lower(s[1..]);
      if IsSpace(s[0]) {
        assert l[1..] == Lower(s[1..]);
        LowerTrimStart(s[1..]);
      }
    }
  }

  /** Lower-casing a prefix gives the prefix of the lower-cased text. */
  lemma LowerPrefix(s: string, n: nat)
    requires n <= |s|
    ensures Lower(s)[..n] == Lower(s[..n])
  {
    var a, b := Lower(s)[..n], Lower(s[..n]);
    forall i | 0 <= i < n ensures a[i] == b[i] {
      assert s[..n][i] == s[i];
    }
  }

  lemma {:induction false} LowerTrimEnd(s: string)
    ensures Lower(TrimEnd(s)) == TrimEnd(Lower(s))
  {
    if s != [] {
      var n := |s| - 1;
      var l := Lower(s);
      assert |l| == |s| && IsSpace(l[n]) == IsSpace(s[n]) by { LowerCharSpace(s[n]); }
      if IsSpace(s[n]) {
        calc {
          Lower(TrimEnd(s));
        ==
          Lower(TrimEnd(s[..n]));
        == { LowerTrimEnd(s[..n]); }
          TrimEnd(Lower(s[..n]));
        == { LowerPrefix(s, n); }
          TrimEnd(l[..n]);
        ==
          TrimEnd(l);
        }
      }
    }
  }

  /** Lower-casing never touches whitespace, so the order in which the two setters run
      does not matter. */
  lemma NormalizeOrderIrrelevant(m: string)
    ensures NormalizeMember(m) == Trim(Lower(m))
  {
    LowerTrimStart(m);
    LowerTrimEnd(TrimStart(m));
  }

  /** Normalising an already normalised member changes nothing. */
  lemma NormalizeIdempotent(m: string)
    ensures NormalizeMember(NormalizeMember(m)) == NormalizeMember(m)
  {
    var t := Trim(m);
    TrimEndsNotSpace(m);
    var n := Lower(t);
    assert n != [] ==> !IsSpace(n[0]) && !IsSpace(n[|n| - 1]);
    TrimOfTrimmed(n);
    LowerIdempotent(t);
  }

  /** Every member is non-empty and already in the form the setters produce. */
  predicate AllNormalized(ms: seq<string>) {
    forall i :: 0 <= i < |ms| ==> NormalizeMember(ms[i]) == ms[i] && ms[i] != ""
  }

  /** The setters applied to every member of a list. */
  function NormalizeAll(ms: seq<string>): (r: seq<string>)
    ensures |r| == |ms|
    ensures forall i :: 0 <= i < |ms| ==> r[i] == NormalizeMember(ms[i])
  {
    if ms == [] then [] else [NormalizeMember(ms[0])] + NormalizeAll(ms[1..])
  }

  /** Builds and validates a new group: none unless the name is given and every member is
      non-empty once normalised (each member is `required`); the stored members are the
      normalised ones, in the given order. */
  function NewGroup(name: Option<string>, members: seq<string>): (r: Option<Group>)
    ensures r.Some? <==> VehicleModel.Supplied(name)
                         && forall i :: 0 <= i < |members| ==> NormalizeMember(members[i]) != ""
    ensures r.Some? ==> Some(r.value.name) == name
    ensures r.Some? ==> |r.value.members| == |members|
    ensures r.Some? ==> forall i :: 0 <= i < |members| ==> r.value.members[i] == NormalizeMember(members[i])
  {
    if VehicleModel.Supplied(name) && forall i :: 0 <= i < |members| ==> NormalizeMember(members[i]) != ""
    then Some(Group(name.value, NormalizeAll(members)))
    else None
  }
}
