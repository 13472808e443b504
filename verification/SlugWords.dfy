/**
 What a slug spells.

 The letters and digits of the name, lowered and in order, with one hyphen between two of them wherever something else
 stood between them, cut to fifty characters; and `workstream` if there are none.
 */
module SlugWords {
  import opened Slugs

  /** The offsets of the letters and digits among the first `n` characters of the name, ascending. */
  ghost predicate Picks(a: Alphabet, name: string, n: nat, at: seq<nat>)
    requires n <= |name|
  {
    && (forall k :: 0 <= k < |at| ==> at[k] < n)
    && (forall k, l :: 0 <= k < l < |at| ==> at[k] < at[l])
    && (forall i: nat :: i < n ==> (i in at <==> a.alnum(a.lower(name[i]))))
  }

  /** The characters at the offsets, lowered, with a hyphen where offsets are not next to each other. */
  function Spelled(a: Alphabet, name: string, at: seq<nat>): string
    requires forall k :: 0 <= k < |at| ==> at[k] < |name|
    decreases |at|
  {
    if at == [] then ""
    else
      var n := |at| - 1;
      Spelled(a, name, at[..n]) + (if n > 0 && at[n - 1] + 1 < at[n] then "-" else "") + [a.lower(name[at[n]])]
  }

  // ---------------------------------------------------------------------------------------------------
  // One character more
  // ---------------------------------------------------------------------------------------------------

  predicate EndsInHyphen(s: string) {
    s != "" && s[|s| - 1] == '-'
  }

  lemma {:induction false} CollapsedSnoc(s: string, c: char)
    ensures Collapsed(s + [c]) == if c == '-' && EndsInHyphen(s) then Collapsed(s) else Collapsed(s) + [c]
    decreases |s|
  {
    if 2 <= |s| {
      assert (s + [c])[1..] == s[1..] + [c];
      CollapsedSnoc(s[1..], c);
    } else if |s| == 1 {
      assert (s + [c])[1..] == [c];
      assert s + [c] == [s[0], c];
    }
  }

  lemma {:induction false} TrimLeftSnoc(s: string, c: char)
    ensures TrimLeft(s + [c]) == if TrimLeft(s) == "" then (if c == '-' then "" else [c]) else TrimLeft(s) + [c]
    decreases |s|
  {
    if s == "" {
      assert [c][1..] == "";
    } else if s[0] == '-' {
      assert (s + [c])[1..] == s[1..] + [c];
      TrimLeftSnoc(s[1..], c);
    }
  }

  function Pending(spelled: string, mapped: string): string {
    if spelled != "" && EndsInHyphen(mapped) then "-" else ""
  }

  lemma {:induction false} TextSnoc(mapped: string, c: char, spelled: string)
    requires TrimLeft(Collapsed(mapped)) == spelled + Pending(spelled, mapped)
    ensures TrimLeft(Collapsed(mapped + [c]))
         == if c == '-' then spelled + Pending(spelled, mapped + [c]) else spelled + Pending(spelled, mapped) + [c]
  {
    CollapsedSnoc(mapped, c);
    TrimLeftSnoc(Collapsed(mapped), c);
    assert c == '-' ==> Pending(spelled, mapped + [c]) == if spelled != "" then "-" else "";
    assert spelled == "" ==> Pending(spelled, mapped) == "" && spelled + "" == "";
  }

  // ---------------------------------------------------------------------------------------------------
  // The spelling
  // ---------------------------------------------------------------------------------------------------

  /** Where the first `n` characters of the name have led: the spelling, and a hyphen that may turn out to be last. */
  ghost predicate SpelledTo(a: Alphabet, name: string, n: nat, at: seq<nat>)
    requires n <= |name| && forall k :: 0 <= k < |at| ==> at[k] < |name|
  {
    var mapped, spelled := Mapped(a, name)[..n], Spelled(a, name, at);
    TrimLeft(Collapsed(mapped)) == spelled + Pending(spelled, mapped)
  }

  lemma {:induction false} MappedEnds(a: Alphabet, name: string, n: nat, at: seq<nat>)
    requires a.Sound() && n <= |name| && Picks(a, name, n, at)
    ensures EndsInHyphen(Mapped(a, name)[..n]) <==> n > 0 && n - 1 !in at
  {
  }

  lemma {:induction false} PicksSnoc(a: Alphabet, name: string, n: nat, at: seq<nat>)
    requires n < |name| && Picks(a, name, n, at)
    ensures Picks(a, name, n + 1, if a.alnum(a.lower(name[n])) then at + [n] else at)
  {
    var next := if a.alnum(a.lower(name[n])) then at + [n] else at;
    assert n !in at;
  }

  lemma {:induction false} SpelledSnoc(a: Alphabet, name: string, n: nat, at: seq<nat>)
    requires n < |name| && forall k :: 0 <= k < |at| ==> at[k] < |name|
    ensures Spelled(a, name, at + [n])
         == Spelled(a, name, at) + (if at != [] && at[|at| - 1] + 1 < n then "-" else "") + [a.lower(name[n])]
  {
    assert (at + [n])[..|at|] == at;
  }

  lemma {:induction false} OneSkipped(a: Alphabet, name: string, n: nat, at: seq<nat>)
    requires a.Sound() && n < |name| && Picks(a, name, n, at) && SpelledTo(a, name, n, at)
    requires !a.alnum(a.lower(name[n]))
    ensures SpelledTo(a, name, n + 1, at)
  {
    var mapped, c := Mapped(a, name)[..n], Mapped(a, name)[n];
    assert c == '-' && Mapped(a, name)[..n + 1] == mapped + [c];
    TextSnoc(mapped, c, Spelled(a, name, at));
  }

  lemma {:induction false} OneTaken(a: Alphabet, name: string, n: nat, at: seq<nat>)
    requires a.Sound() && n < |name| && Picks(a, name, n, at) && SpelledTo(a, name, n, at)
    requires a.alnum(a.lower(name[n]))
    ensures SpelledTo(a, name, n + 1, at + [n])
  {
    var mapped, c := Mapped(a, name)[..n], Mapped(a, name)[n];
    assert c == a.lower(name[n]) && c != '-' && Mapped(a, name)[..n + 1] == mapped + [c];
    TextSnoc(mapped, c, Spelled(a, name, at));
    OneKept(a, name, n, at);
    assert !EndsInHyphen(mapped + [c]);
    NoPending(Spelled(a, name, at + [n]), mapped + [c]);
  }

  lemma {:induction false} NoPending(spelled: string, mapped: string)
    requires !EndsInHyphen(mapped)
    ensures spelled + Pending(spelled, mapped) == spelled
  {
  }

  /** A letter or digit is spelled behind the hyphen that was pending. */
  lemma {:induction false} OneKept(a: Alphabet, name: string, n: nat, at: seq<nat>)
    requires a.Sound() && n < |name| && Picks(a, name, n, at)
    ensures Spelled(a, name, at + [n])
         == Spelled(a, name, at) + Pending(Spelled(a, name, at), Mapped(a, name)[..n]) + [a.lower(name[n])]
  {
    SpelledSnoc(a, name, n, at);
    MappedEnds(a, name, n, at);
    if at != [] {
      LastPick(a, name, n, at);
    }
  }

  lemma {:induction false} LastPick(a: Alphabet, name: string, n: nat, at: seq<nat>)
    requires n <= |name| && Picks(a, name, n, at) && at != []
    ensures at[|at| - 1] + 1 < n <==> n - 1 !in at
  {
    if n - 1 in at {
      var k :| 0 <= k < |at| && at[k] == n - 1;
    } else {
      assert at[|at| - 1] in at;
    }
  }

  lemma {:induction false} OneMore(a: Alphabet, name: string, n: nat, at: seq<nat>) returns (next: seq<nat>)
    requires a.Sound() && n < |name| && Picks(a, name, n, at) && SpelledTo(a, name, n, at)
    ensures Picks(a, name, n + 1, next) && SpelledTo(a, name, n + 1, next)
  {
    PicksSnoc(a, name, n, at);
    if a.alnum(a.lower(name[n])) {
      OneTaken(a, name, n, at);
      next := at + [n];
    } else {
      OneSkipped(a, name, n, at);
      next := at;
    }
  }

  lemma {:induction false} Spells(a: Alphabet, name: string, n: nat) returns (at: seq<nat>)
    requires a.Sound() && n <= |name|
    ensures Picks(a, name, n, at) && SpelledTo(a, name, n, at)
  {
    if n == 0 {
      at := [];
    } else {
      var before := Spells(a, name, n - 1);
      at := OneMore(a, name, n - 1, before);
    }
  }

  lemma {:induction false} LastSpelled(a: Alphabet, name: string, at: seq<nat>)
    requires a.Sound() && Picks(a, name, |name|, at)
    ensures !EndsInHyphen(Spelled(a, name, at))
  {
    if at != [] {
      assert at[|at| - 1] in at;
    }
  }

  /** The slug of a name is its spelling, cut to fifty characters, or `workstream`. */
  lemma {:induction false} SlugExactly(a: Alphabet, name: string) returns (at: seq<nat>)
    requires a.Sound()
    ensures Picks(a, name, |name|, at)
    ensures var spelled, slug := Spelled(a, name, at), Slug(a, name);
      && (at == [] ==> slug == "workstream")
      && (at != [] && |spelled| <= 50 ==> slug == spelled)
      && (at != [] && |spelled| > 50 ==> slug == spelled[..50])
  {
    at := Spells(a, name, |name|);
    assert Mapped(a, name)[..|name|] == Mapped(a, name);
    LastSpelled(a, name, at);
    var spelled, left := Spelled(a, name, at), TrimLeft(Collapsed(Mapped(a, name)));
    assert left == spelled || (left == spelled + "-" && (spelled + "-")[..|spelled|] == spelled);
    assert TrimRight(left) == spelled;
  }
}
