/** The suggestion of the developer console (platform/dev_command.c): the verb nearest to a mistyped word, by
    edit distance over two rows. */
module DevCommand {
  import opened Wrappers

  const SUGGEST_MAX_LEN: nat := 31
  const SUGGEST_THRESHOLD: nat := 3

  /** tolower in the C locale. */
  function Lower(c: char): char {
    if 'A' <= c <= 'Z' then (c as int + 32) as char else c
  }

  function Cost(x: char, y: char): nat {
    if Lower(x) == Lower(y) then 0 else 1
  }

  function Min3(a: nat, b: nat, c: nat): nat {
    var ab := if a < b then a else b;
    if c < ab then c else ab
  }

  function Front(s: string): (t: string)
    requires |s| > 0
    ensures |t| == |s| - 1
  {
    s[..|s| - 1]
  }

  function Last(s: string): char
    requires |s| > 0
  {
    s[|s| - 1]
  }

  /** The edit distance, ignoring case. */
  function Dist(a: string, b: string): nat
    decreases |a| + |b|
  {
    if |a| == 0 then |b|
    else if |b| == 0 then |a|
    else Min3(Dist(Front(a), b) + 1, Dist(a, Front(b)) + 1, Dist(Front(a), Front(b)) + Cost(Last(a), Last(b)))
  }

  // ---- what the distance means -----------------------------------------------------------------

  /** One step of turning a word into another: pair two letters, drop one, or put one in. */
  datatype Edit = Pair | Drop | Put

  /** The edits use up both words exactly. */
  predicate Turns(edits: seq<Edit>, a: string, b: string)
    decreases |edits|
  {
    if |edits| == 0 then |a| == 0 && |b| == 0
    else
      var before := edits[..|edits| - 1];
      match edits[|edits| - 1]
      case Pair => |a| > 0 && |b| > 0 && Turns(before, Front(a), Front(b))
      case Drop => |a| > 0 && Turns(before, Front(a), b)
      case Put => |b| > 0 && Turns(before, a, Front(b))
  }

  /** What the edits cost: nothing for a pair of equal letters, one for anything else. */
  function Price(edits: seq<Edit>, a: string, b: string): nat
    requires Turns(edits, a, b)
    decreases |edits|
  {
    if |edits| == 0 then 0
    else
      var before := edits[..|edits| - 1];
      match edits[|edits| - 1]
      case Pair => Price(before, Front(a), Front(b)) + Cost(Last(a), Last(b))
      case Drop => Price(before, Front(a), b) + 1
      case Put => Price(before, a, Front(b)) + 1
  }

  /** No way of turning one word into the other is cheaper than the distance. */
  lemma {:induction false} NoCheaper(edits: seq<Edit>, a: string, b: string)
    requires Turns(edits, a, b)
    ensures Dist(a, b) <= Price(edits, a, b)
    decreases |edits|
  {
    if |edits| > 0 {
      var before := edits[..|edits| - 1];
      match edits[|edits| - 1] {
        case Pair =>
          NoCheaper(before, Front(a), Front(b));
        case Drop =>
          NoCheaper(before, Front(a), b);
          LongerBy(a, b);
        case Put =>
          NoCheaper(before, a, Front(b));
          LongerBy(a, b);
      }
    }
  }

  /** Some way costs just the distance. */
  lemma {:induction false} Reached(a: string, b: string) returns (edits: seq<Edit>)
    ensures Turns(edits, a, b) && Price(edits, a, b) == Dist(a, b)
    decreases |a| + |b|
  {
    if |a| == 0 && |b| == 0 {
      edits := [];
    } else if |a| == 0 || (|b| > 0 && Dist(a, b) == Dist(a, Front(b)) + 1) {
      var before := Reached(a, Front(b));
      edits := before + [Put];
      assert edits[..|edits| - 1] == before;
    } else if |b| == 0 || Dist(a, b) == Dist(Front(a), b) + 1 {
      var before := Reached(Front(a), b);
      edits := before + [Drop];
      assert edits[..|edits| - 1] == before;
    } else {
      var before := Reached(Front(a), Front(b));
      edits := before + [Pair];
      assert edits[..|edits| - 1] == before;
    }
  }

  /** Lengths differ by no more than the distance. */
  lemma {:induction false} LongerBy(a: string, b: string)
    ensures |a| <= |b| + Dist(a, b) && |b| <= |a| + Dist(a, b)
    decreases |a| + |b|
  {
    if |a| > 0 && |b| > 0 {
      LongerBy(Front(a), b);
      LongerBy(a, Front(b));
      LongerBy(Front(a), Front(b));
    }
  }

  lemma {:induction false} Symmetric(a: string, b: string)
    ensures Dist(a, b) == Dist(b, a)
    decreases |a| + |b|
  {
    if |a| > 0 && |b| > 0 {
      Symmetric(Front(a), b);
      Symmetric(a, Front(b));
      Symmetric(Front(a), Front(b));
    }
  }

  /** Same letters, whatever their case. */
  ghost predicate SameWord(a: string, b: string) {
    |a| == |b| && forall i :: 0 <= i < |a| ==> Lower(a[i]) == Lower(b[i])
  }

  /** The case of the 26 letters is ignored, and nothing else about a character. */
  lemma LettersSpelled(i: nat, c: char)
    ensures i < 26 ==> Lower("ABCDEFGHIJKLMNOPQRSTUVWXYZ"[i]) == "abcdefghijklmnopqrstuvwxyz"[i]
    ensures (c < 'A' || c > 'Z') ==> Lower(c) == c
    ensures SameWord("HELP", "help")
  {}

  lemma {:induction false} ZeroIffSame(a: string, b: string)
    ensures Dist(a, b) == 0 <==> SameWord(a, b)
    decreases |a| + |b|
  {
    if |a| > 0 && |b| > 0 {
      ZeroIffSame(Front(a), Front(b));
      assert SameWord(a, b) <==> SameWord(Front(a), Front(b)) && Lower(Last(a)) == Lower(Last(b));
    }
  }

  lemma {:induction false} Triangle(a: string, b: string, c: string)
    ensures Dist(a, c) <= Dist(a, b) + Dist(b, c)
    decreases |a| + |b| + |c|
  {
    LongerBy(a, b);
    LongerBy(b, c);
    if |a| > 0 && |b| == 0 && |c| > 0 {
      AtMostBoth(a, c);
    } else if |a| > 0 && |b| > 0 && |c| > 0 {
      Triangle(Front(a), b, c);
      Triangle(a, b, Front(c));
      Triangle(a, Front(b), c);
      Triangle(a, Front(b), Front(c));
      Triangle(Front(a), Front(b), c);
      Triangle(Front(a), Front(b), Front(c));
    }
  }

  lemma {:induction false} AtMostBoth(a: string, c: string)
    ensures Dist(a, c) <= |a| + |c|
    decreases |a| + |c|
  {
    if |a| > 0 && |c| > 0 {
      AtMostBoth(Front(a), c);
    }
  }

  /** One slip is a distance of one: a letter too many, a letter too few, or a wrong letter. */
  lemma {:induction false} OneSlip(a: string, x: char, y: char, b: string)
    ensures Dist(a + [x] + b, a + b) == Dist(a + b, a + [x] + b) == 1
    ensures Lower(x) != Lower(y) ==> Dist(a + [x] + b, a + [y] + b) == 1
  {
    var long, short, wrong := a + [x] + b, a + b, a + [y] + b;
    AtMostOneSlip(a, x, y, b);
    LongerBy(long, short);
    Symmetric(long, short);
    if Lower(x) != Lower(y) {
      ZeroIffSame(long, wrong);
      assert long[|a|] == x && wrong[|a|] == y;
    }
  }

  lemma {:induction false} AtMostOneSlip(a: string, x: char, y: char, b: string)
    ensures Dist(a + [x] + b, a + b) <= 1 && Dist(a + [x] + b, a + [y] + b) <= 1
    decreases |b|
  {
    var long, short, wrong := a + [x] + b, a + b, a + [y] + b;
    if |b| == 0 {
      assert short == a && Front(long) == a && Front(wrong) == a;
      ZeroIffSame(a, a);
    } else {
      AtMostOneSlip(a, x, y, Front(b));
      assert Front(long) == a + [x] + Front(b) && Last(long) == Last(b);
      assert Front(short) == a + Front(b) && Last(short) == Last(b);
      assert Front(wrong) == a + [y] + Front(b) && Last(wrong) == Last(b);
    }
  }

  // ---- the code ----------------------------------------------------------------------------------

  function Capped(s: string): (t: string)
    ensures |t| <= SUGGEST_MAX_LEN
  {
    if |s| <= SUGGEST_MAX_LEN then s else s[..SUGGEST_MAX_LEN]
  }

  lemma DistStep(a: string, b: string, i: nat, j: nat)
    requires 0 < i <= |a| && 0 < j <= |b|
    ensures Dist(a[..i], b[..j]) ==
            Min3(Dist(a[..i - 1], b[..j]) + 1, Dist(a[..i], b[..j - 1]) + 1,
                 Dist(a[..i - 1], b[..j - 1]) + Cost(a[i - 1], b[j - 1]))
  {
    hide Dist, Cost, Min3, Front;
    var x, y := a[..i], b[..j];
    DistBody(x, y);
    FrontOf(a, i);
    FrontOf(b, j);
  }

  lemma DistBody(a: string, b: string)
    requires |a| > 0 && |b| > 0
    ensures Dist(a, b) ==
            Min3(Dist(Front(a), b) + 1, Dist(a, Front(b)) + 1, Dist(Front(a), Front(b)) + Cost(Last(a), Last(b)))
  {
    hide Min3, Cost, Front;
  }

  lemma FrontOf(s: string, i: nat)
    requires 0 < i <= |s|
    ensures Front(s[..i]) == s[..i - 1] && Last(s[..i]) == s[i - 1]
  {}

  /** Two rows of the table at a time. */
  method EditDistance(a: string, b: string) returns (distance: nat)
    ensures distance == Dist(Capped(a), Capped(b))
    ensures distance == Dist(if |a| > 31 then a[..31] else a, if |b| > 31 then b[..31] else b)
  {
    hide Dist, Cost;
    var s, t := Capped(a), Capped(b);
    var la, lb := |s|, |t|;
    var prev := new nat[SUGGEST_MAX_LEN + 1];
    var curr := new nat[SUGGEST_MAX_LEN + 1];
    for j := 0 to lb + 1
      invariant forall k :: 0 <= k < j ==> prev[k] == Dist(s[..0], t[..k])
    {
      prev[j] := j;
      DistFromNothing(s[..0], t[..j]);
    }
    for i := 1 to la + 1
      invariant forall k :: 0 <= k <= lb ==> prev[k] == Dist(s[..i - 1], t[..k])
    {
      curr[0] := i;
      DistToNothing(s[..i], t[..0]);
      for j := 1 to lb + 1
        invariant forall k :: 0 <= k < j ==> curr[k] == Dist(s[..i], t[..k])
        invariant forall k :: 0 <= k <= lb ==> prev[k] == Dist(s[..i - 1], t[..k])
      {
        var cost := if Lower(s[i - 1]) == Lower(t[j - 1]) then 0 else 1;
        CostIs(s[i - 1], t[j - 1]);
        var deletion := prev[j] + 1;
        var insertion := curr[j - 1] + 1;
        var substitution := prev[j - 1] + cost;
        var best := if deletion < insertion then deletion else insertion;
        if substitution < best {
          best := substitution;
        }
        DistStep(s, t, i, j);
        curr[j] := best;
      }
      for k := 0 to lb + 1
        invariant forall m :: 0 <= m < k ==> prev[m] == Dist(s[..i], t[..m])
        invariant forall m :: 0 <= m <= lb ==> curr[m] == Dist(s[..i], t[..m])
      {
        prev[k] := curr[k];
      }
    }
    assert s[..la] == s && t[..lb] == t;
    return prev[lb];
  }

  lemma DistFromNothing(a: string, b: string)
    requires |a| == 0
    ensures Dist(a, b) == |b|
  {}

  lemma DistToNothing(a: string, b: string)
    requires |b| == 0
    ensures Dist(a, b) == |a|
  {}

  lemma CostIs(x: char, y: char)
    ensures Cost(x, y) == if Lower(x) == Lower(y) then 0 else 1
  {}

  function Far(text: string, verb: string): nat {
    Dist(Capped(text), Capped(verb))
  }

  /** The first verb at the least distance. */
  ghost predicate Nearest(text: string, verbs: seq<string>, k: nat)
    requires k < |verbs|
  {
    && (forall j :: 0 <= j < |verbs| ==> Far(text, verbs[k]) <= Far(text, verbs[j]))
    && (forall j :: 0 <= j < k ==> Far(text, verbs[k]) < Far(text, verbs[j]))
  }

  /** The first nearest verb, unless even that is too far to be a slip. */
  method Suggest(text: string, verbs: seq<string>) returns (suggestion: Option<string>)
    ensures suggestion.Some? <==> text != "" && exists k :: 0 <= k < |verbs| && Far(text, verbs[k]) <= 3
    ensures suggestion.Some? ==>
              exists k :: 0 <= k < |verbs| && verbs[k] == suggestion.value && Nearest(text, verbs, k)
  {
    hide Dist;
    if text == "" {
      return None;
    }
    var best, bestDistance: nat := -1, 0;
    for i := 0 to |verbs|
      invariant -1 <= best < i && (best == -1 <==> i == 0)
      invariant best >= 0 ==> bestDistance == Far(text, verbs[best])
      invariant best >= 0 ==> forall j :: 0 <= j < i ==> bestDistance <= Far(text, verbs[j])
      invariant best >= 0 ==> forall j :: 0 <= j < best ==> bestDistance < Far(text, verbs[j])
    {
      var distance := EditDistance(text, verbs[i]);
      if best < 0 || distance < bestDistance {
        best, bestDistance := i, distance;
      }
    }
    if best < 0 || bestDistance > SUGGEST_THRESHOLD {
      return None;
    }
    assert Nearest(text, verbs, best);
    return Some(verbs[best]);
  }
}
