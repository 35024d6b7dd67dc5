/** PostgreSQL's `ILIKE`: `%` matches any run of characters, `_` any one
    character, a backslash makes the next character literal, and letters
    compare without regard to case. */
module Like {
  import opened JsText

  predicate IsMeta(c: char) {
    c == '%' || c == '_' || c == '\\'
  }

  function Fold(c: char): char {
    LowerChar(c)
  }

  /** `t ILIKE p`. A pattern whose last character is a lone backslash is an
      error in PostgreSQL; no pattern built here ends that way. */
  predicate ILike(t: string, p: string)
    decreases |t| + |p|
  {
    if p == [] then t == []
    else if p[0] == '%' then ILike(t, p[1..]) || (t != [] && ILike(t[1..], p))
    else if p[0] == '_' then t != [] && ILike(t[1..], p[1..])
    else if p[0] == '\\' && |p| >= 2 then t != [] && Fold(t[0]) == Fold(p[1]) && ILike(t[1..], p[2..])
    else t != [] && Fold(t[0]) == Fold(p[0]) && ILike(t[1..], p[1..])
  }

  /** `t` starts with `x`, ignoring case. */
  predicate StartsWithCI(t: string, x: string) {
    |x| <= |t| && forall i :: 0 <= i < |x| ==> Fold(t[i]) == Fold(x[i])
  }

  /** `x` occurs in `t` at some position, ignoring case. */
  predicate ContainsCI(t: string, x: string)
    decreases |t|
  {
    StartsWithCI(t, x) || (t != [] && ContainsCI(t[1..], x))
  }

  /** `%x%`: the pattern the store builds from a search filter. */
  function Around(x: string): string {
    "%" + x + "%"
  }

  /** `x` with every wildcard and backslash escaped, so that it matches only itself. */
  function Escape(x: string): (r: string)
    ensures |r| >= |x|
  {
    if x == [] then [] else (if IsMeta(x[0]) then ['\\', x[0]] else [x[0]]) + Escape(x[1..])
  }

  // ---------------------------------------------------------------------------
  // Properties

  /** A lone `%` matches everything. */
  lemma {:induction false} PercentMatchesAll(t: string)
    ensures ILike(t, "%")
    decreases |t|
  {
    if t != [] {
      PercentMatchesAll(t[1..]);
    }
  }

  /** `Escape(x) + "%"` matches exactly the strings that start with `x`. */
  lemma {:induction false} EscapedPrefix(t: string, x: string)
    ensures ILike(t, Escape(x) + "%") <==> StartsWithCI(t, x)
    decreases |x|
  {
    if x == [] {
      assert Escape(x) + "%" == "%";
      PercentMatchesAll(t);
    } else {
      var rest := Escape(x[1..]) + "%";
      var p := Escape(x) + "%";
      if IsMeta(x[0]) {
        assert p == ['\\', x[0]] + rest;
        assert p[0] == '\\' && p[1] == x[0] && p[2..] == rest;
      } else {
        assert p == [x[0]] + rest;
        assert p[0] == x[0] && p[1..] == rest;
      }
      if t != [] {
        EscapedPrefix(t[1..], x[1..]);
        StartsWithStep(t, x);
      }
    }
  }

  lemma StartsWithStep(t: string, x: string)
    requires t != [] && x != []
    ensures StartsWithCI(t, x) <==> Fold(t[0]) == Fold(x[0]) && StartsWithCI(t[1..], x[1..])
  {
    if Fold(t[0]) == Fold(x[0]) && StartsWithCI(t[1..], x[1..]) {
      forall i | 0 <= i < |x|
        ensures Fold(t[i]) == Fold(x[i])
      {
        if i > 0 { assert t[1..][i - 1] == t[i] && x[1..][i - 1] == x[i]; }
      }
    }
  }

  /** `%` + `Escape(x)` + `%` matches exactly the strings containing `x`. */
  lemma {:induction false} EscapedContains(t: string, x: string)
    ensures ILike(t, Around(Escape(x))) <==> ContainsCI(t, x)
    decreases |t|
  {
    var q := Escape(x) + "%";
    var p := Around(Escape(x));
    assert p == ['%'] + q;
    assert p[0] == '%' && p[1..] == q;
    EscapedPrefix(t, x);
    if t != [] {
      EscapedContains(t[1..], x);
    }
  }

  /** Text without wildcards or backslashes escapes to itself. */
  lemma {:induction false} EscapePlain(x: string)
    requires forall i :: 0 <= i < |x| ==> !IsMeta(x[i])
    ensures Escape(x) == x
    decreases |x|
  {
    if x != [] {
      EscapePlain(x[1..]);
    }
  }

  /** So for plain text the unescaped pattern `%x%` is a substring search. */
  lemma PlainContains(t: string, x: string)
    requires forall i :: 0 <= i < |x| ==> !IsMeta(x[i])
    ensures ILike(t, Around(x)) <==> ContainsCI(t, x)
  {
    EscapePlain(x);
    EscapedContains(t, x);
  }

  /** But unescaped, an underscore in the filter matches any character: the
      filter `A_` finds the ticket `AB`, which does not contain it. */
  lemma UnderscoreIsWildcard()
    ensures ILike("AB", Around("A_"))
    ensures !ContainsCI("AB", "A_")
  {
    var p := Around("A_");
    assert p == "%A_%";
    assert ILike("", "%");
    assert ILike("", p[3..]);
    assert ILike("AB"[2..], p[3..]);
    assert ILike("AB"[1..], p[2..]);
    assert ILike("AB", p[1..]);
    assert !StartsWithCI("AB", "A_") by { assert Fold("AB"[1]) != Fold("A_"[1]); }
    assert !StartsWithCI("B", "A_");
    assert !ContainsCI("", "A_");
  }
}
