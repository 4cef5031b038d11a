/**
 * The part of Go's `strings` package that the enforcer uses: `strings.Split`
 * with a one-character separator, and the `strings.Split(s, ":")[1]` idiom
 * that extracts the identifier of a `"<kind>:<id>"` claim.
 */
module GoStrings {
  import opened Wrappers

  /** The number of occurrences of `sep` in `s`. */
  function Count(s: string, sep: char): (n: nat)
    ensures n <= |s|
    ensures n == 0 <==> sep !in s
  {
    if s == [] then 0
    else (if s[0] == sep then 1 else 0) + Count(s[1..], sep)
  }

  /**
   * `strings.Split(s, sep)`: the pieces of `s` between occurrences of `sep`.
   * There is always one more piece than separators, and no piece contains one;
   * `Split("", sep)` is `[""]`.
   */
  function Split(s: string, sep: char): (parts: seq<string>)
    ensures |parts| >= 1
  {
    if s == [] then [[]]
    else
      var rest := Split(s[1..], sep);
      if s[0] == sep then [[]] + rest
      else [[s[0]] + rest[0]] + rest[1..]
  }

  /** There is one more piece than there are separators. */
  lemma {:induction false} SplitLength(s: string, sep: char)
    ensures |Split(s, sep)| == Count(s, sep) + 1
  {
    if s != [] {
      SplitLength(s[1..], sep);
    }
  }

  /** No piece of a split holds the separator. */
  lemma {:induction false} SplitPiecesSepFree(s: string, sep: char)
    ensures forall i :: 0 <= i < |Split(s, sep)| ==> sep !in Split(s, sep)[i]
  {
    if s != [] {
      SplitPiecesSepFree(s[1..], sep);
      var rest := Split(s[1..], sep);
      if s[0] != sep {
        assert sep !in [s[0]] + rest[0];
      }
    }
  }

  /** `strings.Join(parts, sep)`, the inverse of `Split`. */
  function Join(parts: seq<string>, sep: char): string
  {
    if |parts| == 0 then []
    else if |parts| == 1 then parts[0]
    else parts[0] + [sep] + Join(parts[1..], sep)
  }

  /**
   * `strings.Split(s, ":")[1]`: the text between the first colon and the
   * next one (or the end). `None` stands for Go's index-out-of-range panic,
   * which happens exactly when `s` holds no colon.
   */
  function SecondField(s: string): (r: Option<string>)
    ensures r.None? <==> ':' !in s
    ensures r.Some? ==> ':' !in r.value && |r.value| < |s|
  {
    var parts := Split(s, ':');
    SplitLength(s, ':');
    if |parts| < 2 then None
    else
      JoinSplit(s, ':');
      JoinLength(parts, ':');
      SplitPiecesSepFree(s, ':');
      Some(parts[1])
  }

  /** Joining the pieces of a split gives back the original string. */
  lemma {:induction false} JoinSplit(s: string, sep: char)
    ensures Join(Split(s, sep), sep) == s
  {
    if s != [] {
      var rest := Split(s[1..], sep);
      JoinSplit(s[1..], sep);
      assert s == [s[0]] + s[1..];
      if s[0] == sep {
        JoinSeparator(rest, sep);
      } else {
        JoinGlue(s[0], rest, sep);
      }
    }
  }

  /** An empty first piece contributes just the separator. */
  lemma JoinSeparator(parts: seq<string>, sep: char)
    requires |parts| >= 1
    ensures Join([[]] + parts, sep) == [sep] + Join(parts, sep)
  {
    var all := [[]] + parts;
    assert all[1..] == parts;
  }

  /** A character glued to the first piece comes first in the join. */
  lemma JoinGlue(c: char, parts: seq<string>, sep: char)
    requires |parts| >= 1
    ensures Join([[c] + parts[0]] + parts[1..], sep) == [c] + Join(parts, sep)
  {
    var all := [[c] + parts[0]] + parts[1..];
    if |parts| > 1 {
      assert all[1..] == parts[1..];
      assert ([c] + parts[0]) + [sep] + Join(parts[1..], sep) == [c] + (parts[0] + [sep] + Join(parts[1..], sep));
    }
  }

  /** The joined string is at least as long as its second piece plus one separator. */
  lemma {:induction false} JoinLength(parts: seq<string>, sep: char)
    requires |parts| >= 2
    ensures |Join(parts, sep)| > |parts[1]|
  {
    if |parts| > 2 {
      assert Join(parts, sep) == parts[0] + [sep] + Join(parts[1..], sep);
      JoinTailLength(parts[1..], sep);
    }
  }

  /** A join of several pieces is at least as long as its first piece. */
  lemma {:induction false} JoinTailLength(parts: seq<string>, sep: char)
    requires |parts| >= 1
    ensures |Join(parts, sep)| >= |parts[0]|
  {
  }

  /** Splitting `p + t`, where `p` has no separator, glues `p` onto the first piece of `t`. */
  lemma {:induction false} SplitSepFreePrefix(p: string, t: string, sep: char)
    requires sep !in p
    ensures Split(p + t, sep) == [p + Split(t, sep)[0]] + Split(t, sep)[1..]
  {
    if p == [] {
      var st := Split(t, sep);
      assert p + t == t && p + st[0] == st[0];
      assert st == [st[0]] + st[1..];
    } else {
      assert sep !in p[1..] by {
        assert forall i :: 0 <= i < |p[1..]| ==> p[1..][i] == p[i + 1];
      }
      SplitSepFreePrefix(p[1..], t, sep);
      SplitSepFreeStep(p, t, sep);
    }
  }

  /** The inductive step of `SplitSepFreePrefix`: one more leading character. */
  lemma SplitSepFreeStep(p: string, t: string, sep: char)
    requires p != [] && p[0] != sep
    requires Split(p[1..] + t, sep) == [p[1..] + Split(t, sep)[0]] + Split(t, sep)[1..]
    ensures Split(p + t, sep) == [p + Split(t, sep)[0]] + Split(t, sep)[1..]
  {
    var s := p + t;
    assert s[0] == p[0] && s[1..] == p[1..] + t;
    SplitCons(s, sep);
    assert [p[0]] + (p[1..] + Split(t, sep)[0]) == p + Split(t, sep)[0] by {
      assert p == [p[0]] + p[1..];
    }
  }

  /** One step of `Split` on a string that does not start with the separator. */
  lemma SplitCons(s: string, sep: char)
    requires s != [] && s[0] != sep
    ensures Split(s, sep) == [[s[0]] + Split(s[1..], sep)[0]] + Split(s[1..], sep)[1..]
  {
  }

  /** Splitting a join of separator-free pieces gives back the pieces. */
  lemma {:induction false} SplitJoin(parts: seq<string>, sep: char)
    requires |parts| >= 1
    requires forall i :: 0 <= i < |parts| ==> sep !in parts[i]
    ensures Split(Join(parts, sep), sep) == parts
  {
    if |parts| == 1 {
      SplitSepFreePrefix(parts[0], [], sep);
      assert parts[0] + [] == parts[0];
    } else {
      var t := Join(parts[1..], sep);
      SplitJoin(parts[1..], sep);
      assert ([sep] + t)[1..] == t;
      assert Split([sep] + t, sep) == [[]] + parts[1..];
      assert parts[0] + [sep] + t == parts[0] + ([sep] + t);
      SplitSepFreePrefix(parts[0], [sep] + t, sep);
      assert parts[0] + [] == parts[0];
    }
  }

  /**
   * The field extracted from `k + ":" + v + rest` is `v` whenever `k` and `v`
   * hold no colon and `rest` is empty or starts a further field.
   */
  lemma SecondFieldOf(k: string, v: string, rest: string)
    requires ':' !in k && ':' !in v
    requires rest == [] || rest[0] == ':'
    ensures SecondField(k + [':'] + v + rest) == Some(v)
  {
    var s := k + [':'] + v + rest;
    assert s == k + ([':'] + (v + rest));
    SplitSepFreePrefix(k, [':'] + (v + rest), ':');
    assert ([':'] + (v + rest))[1..] == v + rest;
    SplitSepFreePrefix(v, rest, ':');
    if rest == [] {
      assert v + rest == v;
    } else {
      assert rest == [':'] + rest[1..];
      assert Split(rest, ':') == [[]] + Split(rest[1..], ':');
      assert Split(rest, ':')[0] == [];
      assert v + [] == v;
    }
  }

  /** The user id of `user:42` is `42`. */
  lemma SecondFieldUser()
    ensures SecondField("user:42") == Some("42")
  {
    SecondFieldOf("user", "42", "");
    assert "user" + [':'] + "42" + "" == "user:42";
  }

  /** Only the second field is taken: `user:42:x` also gives `42`. */
  lemma SecondFieldIgnoresLaterFields()
    ensures SecondField("user:42:x") == Some("42")
  {
    SecondFieldOf("user", "42", ":x");
    assert "user" + [':'] + "42" + ":x" == "user:42:x";
  }

  /** A trailing colon gives an empty field rather than a panic. */
  lemma SecondFieldEmpty()
    ensures SecondField("org:") == Some("")
  {
    SecondFieldOf("org", "", "");
    assert "org" + [':'] + "" + "" == "org:";
  }

  /** A claim without a colon, the empty one included, has no second field. */
  lemma SecondFieldMissing()
    ensures SecondField("user") == None
    ensures SecondField("") == None
  {
  }
}
