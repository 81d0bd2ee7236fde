/** What an edit of members means, apart from blanks between them: reference definitions
    of keeping the last copies of a name and of setting a name, and that the edits meet them. */
module JsonCores {
  import opened JsonText
  import opened JsonTree
  import opened JsonSpans
  import opened JsonEdits

  /** A member without the blanks around it: its bytes from its key to its value's end. */
  datatype Core = Core(key: string, mid: string, gap: string, value: Value) {
    function Name(): string {
      if IsBody(key) then Decode(key) else key
    }
  }

  function CoreOf(m: Member): Core {
    Core(m.key, m.mid, m.gap, m.value)
  }

  function Cores(ms: seq<Member>): (cs: seq<Core>)
    ensures |cs| == |ms| && forall i :: 0 <= i < |ms| ==> cs[i] == CoreOf(ms[i])
  {
    seq(|ms|, i requires 0 <= i < |ms| => CoreOf(ms[i]))
  }

  function Named(cs: seq<Core>, name: string): nat {
    if cs == [] then 0 else (if cs[0].Name() == name then 1 else 0) + Named(cs[1..], name)
  }

  /** All but the last copies of a name dropped, everything else in place. */
  function KeepLast(cs: seq<Core>, name: string, keep: nat): seq<Core> {
    if cs == [] then []
    else if cs[0].Name() == name && Named(cs, name) > keep then KeepLast(cs[1..], name, keep)
    else [cs[0]] + KeepLast(cs[1..], name, keep)
  }

  /** Setting a name: its last copy takes the value where it stands and the others go; a
      name not there is added at the end. */
  function Assign(cs: seq<Core>, name: string, entry: Core): seq<Core> {
    if cs == [] then [entry]
    else if cs[0].Name() != name then [cs[0]] + Assign(cs[1..], name, entry)
    else if Named(cs[1..], name) > 0 then Assign(cs[1..], name, entry)
    else [cs[0].(value := entry.value)] + cs[1..]
  }

  /** The members of other names, in order. */
  function Others(cs: seq<Core>, name: string): seq<Core> {
    if cs == [] then []
    else (if cs[0].Name() == name then [] else [cs[0]]) + Others(cs[1..], name)
  }

  // ---------------------------------------------------------------- what the references mean

  lemma {:induction false} AssignSetsOnce(cs: seq<Core>, name: string, entry: Core)
    requires entry.Name() == name
    ensures Named(Assign(cs, name, entry), name) == 1
    ensures Others(Assign(cs, name, entry), name) == Others(cs, name)
    ensures forall c :: c in Assign(cs, name, entry) && c.Name() == name ==> c.value == entry.value
  {
    if cs != [] {
      var rest := cs[1..];
      if cs[0].Name() != name {
        AssignSetsOnce(rest, name, entry);
        assert ([cs[0]] + Assign(rest, name, entry))[1..] == Assign(rest, name, entry);
      } else if Named(rest, name) > 0 {
        AssignSetsOnce(rest, name, entry);
      } else {
        NoneNamed(rest, name);
        assert ([cs[0].(value := entry.value)] + rest)[1..] == rest;
      }
    } else {
      assert [entry][1..] == [];
    }
  }

  lemma {:induction false} NoneNamed(cs: seq<Core>, name: string)
    ensures Named(cs, name) == 0 <==> forall c :: c in cs ==> c.Name() != name
  {
    if cs != [] {
      NoneNamed(cs[1..], name);
      assert cs == [cs[0]] + cs[1..];
    }
  }

  lemma {:induction false} KeepNoneIsOthers(cs: seq<Core>, name: string)
    ensures KeepLast(cs, name, 0) == Others(cs, name) && Named(KeepLast(cs, name, 0), name) == 0
  {
    if cs != [] {
      KeepNoneIsOthers(cs[1..], name);
      if cs[0].Name() != name {
        assert ([cs[0]] + KeepLast(cs[1..], name, 0))[1..] == KeepLast(cs[1..], name, 0);
      }
    }
  }

  // ---------------------------------------------------------------- the edits meet them

  lemma {:induction false} NamedIsCount(ms: seq<Member>, name: string)
    ensures Named(Cores(ms), name) == Count(ms, name)
  {
    if ms != [] {
      NamedIsCount(ms[1..], name);
      assert Cores(ms)[1..] == Cores(ms[1..]);
    }
  }

  lemma CoresOfDelete(ms: seq<Member>, i: nat)
    requires i < |ms|
    ensures Cores(DeleteAt(ms, i)) == Cores(ms)[..i] + Cores(ms)[i + 1..]
  {
  }

  lemma CoresOfAppend(ms: seq<Member>, m: Member)
    requires ms != []
    ensures Cores(Append(ms, m)) == Cores(ms) + [CoreOf(m)]
  {
  }

  lemma {:induction false} KeepLastWithout(cs: seq<Core>, i: nat, name: string, keep: nat)
    requires i < |cs| && cs[i].Name() == name && Named(cs, name) > keep
    requires forall k :: 0 <= k < i ==> cs[k].Name() != name
    ensures KeepLast(cs, name, keep) == KeepLast(cs[..i] + cs[i + 1..], name, keep)
  {
    var less := cs[..i] + cs[i + 1..];
    if i == 0 {
      assert less == cs[1..];
    } else {
      hide KeepLast;
      assert less[1..] == cs[1..][..i - 1] + cs[1..][i..] && less[0] == cs[0];
      KeepLastWithout(cs[1..], i - 1, name, keep);
      KeepsOther(cs, name, keep);
      KeepsOther(less, name, keep);
    }
  }

  lemma KeepsOther(cs: seq<Core>, name: string, keep: nat)
    requires cs != [] && cs[0].Name() != name
    ensures KeepLast(cs, name, keep) == [cs[0]] + KeepLast(cs[1..], name, keep)
  {
  }

  lemma {:induction false} KeepEnough(cs: seq<Core>, name: string, keep: nat)
    requires Named(cs, name) <= keep
    ensures KeepLast(cs, name, keep) == cs
  {
    if cs != [] { KeepEnough(cs[1..], name, keep); }
  }

  /** Deleting first copies one at a time keeps exactly the last ones. */
  lemma {:induction false} TrimKeepsLast(ms: seq<Member>, name: string, keep: nat)
    ensures Cores(Trim(ms, name, keep)) == KeepLast(Cores(ms), name, keep)
    decreases Count(ms, name)
  {
    NamedIsCount(ms, name);
    if Count(ms, name) <= keep {
      KeepEnough(Cores(ms), name, keep);
    } else {
      var i := FirstIndex(ms, name);
      CountIsZero(ms, name);
      CountDeleted(ms, i, name);
      TrimKeepsLast(DeleteAt(ms, i), name, keep);
      CoresOfDelete(ms, i);
      KeepLastWithout(Cores(ms), i, name, keep);
    }
  }

  lemma {:induction false} AssignAppends(cs: seq<Core>, name: string, entry: Core)
    requires Named(cs, name) == 0
    ensures Assign(cs, name, entry) == cs + [entry]
  {
    if cs != [] {
      AssignAppends(cs[1..], name, entry);
    }
  }

  lemma {:induction false} AssignReplaces(cs: seq<Core>, j: nat, name: string, entry: Core)
    requires j < |cs| && cs[j].Name() == name && Named(cs, name) == 1
    ensures Assign(cs, name, entry) == cs[j := cs[j].(value := entry.value)]
  {
    if j == 0 {
    } else {
      SomeNamed(cs[1..], j - 1, name);
      AssignReplaces(cs[1..], j - 1, name, entry);
    }
  }

  lemma {:induction false} SomeNamed(cs: seq<Core>, j: nat, name: string)
    requires j < |cs| && cs[j].Name() == name
    ensures Named(cs, name) > 0
  {
    if j > 0 { SomeNamed(cs[1..], j - 1, name); }
  }

  /** Setting a name among the last copies kept is setting it among all of them. */
  lemma {:induction false} AssignAfterKeep(cs: seq<Core>, name: string, entry: Core)
    ensures Assign(KeepLast(cs, name, 1), name, entry) == Assign(cs, name, entry)
    ensures Named(KeepLast(cs, name, 1), name) == if Named(cs, name) > 0 then 1 else 0
  {
    if cs != [] {
      AssignAfterKeep(cs[1..], name, entry);
      var kept := KeepLast(cs[1..], name, 1);
      assert ([cs[0]] + kept)[1..] == kept;
      if Named(cs, name) <= 1 { KeepEnough(cs, name, 1); }
    }
  }
}
