/** clientgen/naming.go: allocating unique Go identifiers. */
module Names {
  import Text

  function Base(want: string): string {
    if want == "" then "Type" else want
  }

  function Candidate(base: string, i: nat): string {
    base + Text.Itoa(i)
  }

  /** `name` is what `claim` picks: the wanted name if free, otherwise the free
      candidate with the least suffix from 2 up; `tries` counts the look-ups. */
  ghost predicate Chosen(used: set<string>, want: string, name: string, tries: nat) {
    var base := Base(want);
    if base !in used then name == base && tries == 1
    else
      && tries >= 2
      && name == Candidate(base, tries) && name !in used
      && forall j | 2 <= j < tries :: Candidate(base, j) in used
  }

  /** The wish, or the wish and a number from 2 up; "Type" for no wish. */
  ghost predicate NamedAfter(name: string, want: string) {
    var base := if want == "" then "Type" else want;
    name == base || exists n: nat :: n >= 2 && name == base + Text.Itoa(n)
  }

  lemma CandidateInjective(base: string, i: nat, j: nat)
    requires Candidate(base, i) == Candidate(base, j)
    ensures i == j
  {
    assert Candidate(base, i)[|base|..] == Text.Itoa(i);
    assert Candidate(base, j)[|base|..] == Text.Itoa(j);
    Text.ItoaInjective(i, j);
  }

  ghost function Tried(base: string, n: nat): (s: set<string>)
    requires n >= 2
  {
    if n == 2 then {base} else Tried(base, n - 1) + {Candidate(base, n - 1)}
  }

  lemma {:induction false} TriedSize(base: string, n: nat)
    requires n >= 2
    ensures |Tried(base, n)| == n - 1
    ensures forall c | c in Tried(base, n) :: c == base || exists j :: 2 <= j < n && c == Candidate(base, j)
  {
    if n > 2 {
      TriedSize(base, n - 1);
      var c := Candidate(base, n - 1);
      assert |c| > |base|;
      if c in Tried(base, n - 1) {
        if c != base {
          var j :| 2 <= j < n - 1 && c == Candidate(base, j);
          CandidateInjective(base, n - 1, j);
        }
      }
      forall d | d in Tried(base, n) && d != base ensures exists j :: 2 <= j < n && d == Candidate(base, j) {
        if d == c {
          assert 2 <= n - 1 < n && d == Candidate(base, n - 1);
        }
      }
    }
  }

  lemma {:induction false} SubsetSize(a: set<string>, b: set<string>)
    requires a <= b
    ensures |a| <= |b|
  {
    if a != {} {
      var e :| e in a;
      SubsetSize(a - {e}, b - {e});
    }
  }

  /** As long as every name tried is taken, there are at least as many used names
      as tries: the search cannot run past them. */
  lemma TriesBounded(used: set<string>, base: string, n: nat)
    requires n >= 2 && base in used
    requires forall j | 2 <= j < n :: Candidate(base, j) in used
    ensures n - 1 <= |used|
  {
    TriedSize(base, n);
    SubsetSize(Tried(base, n), used);
  }

  lemma ChosenWithinBound(used: set<string>, want: string, name: string, tries: nat)
    requires Chosen(used, want, name, tries)
    ensures name !in used && name != "" && tries <= |used| + 1
  {
    if Base(want) in used {
      TriesBounded(used, Base(want), tries);
    }
  }

  /** A byte that is no digit and in no wish is in no choice. */
  lemma ChosenPlain(used: set<string>, want: string, name: string, tries: nat, c: char)
    requires Chosen(used, want, name, tries) && c !in want && c !in "Type" && !Text.IsDigit(c)
    ensures c !in name
  {
    if Base(want) in used {
      assert c !in Text.Itoa(tries);
    }
  }

  class NameSet {
    var used: set<string>

    constructor (reserved: set<string>)
      ensures used == reserved
    {
      used := reserved;
    }

    /** `claim` */
    method Claim(want: string) returns (name: string, ghost tries: nat)
      modifies this
      ensures Chosen(old(used), want, name, tries)
      ensures name !in old(used) && tries <= |old(used)| + 1 && NamedAfter(name, want)
      ensures used == old(used) + {name}
    {
      var base := if want == "" then "Type" else want;
      if base !in used {
        used := used + {base};
        return base, 1;
      }
      var i := 2;
      while true
        invariant i >= 2 && used == old(used) && base == Base(want) && base in used
        invariant forall j | 2 <= j < i :: Candidate(base, j) in used
        decreases |used| + 2 - i
      {
        TriesBounded(used, base, i);
        var candidate := base + Text.Itoa(i);
        if candidate !in used {
          used := used + {candidate};
          ChosenWithinBound(old(used), want, candidate, i);
          return candidate, i;
        }
        i := i + 1;
      }
    }
  }
}
