/** The string operations of the .NET base library that the browser window relies on:
    `String.Split(char)`, `String.Join`, `Replace("_", "__")` and the value-cache key. */
module Text {

  /** `s.Split(sep)`: the pieces of `s` between the occurrences of `sep`, in order.
      There is always at least one piece and empty pieces are kept, so
      "" gives [""] and "/a" gives ["", "a"]. */
  function Split(s: string, sep: char): (parts: seq<string>)
    ensures |parts| >= 1
    ensures forall i :: 0 <= i < |parts| ==> sep !in parts[i]
    decreases |s|
  {
    if s == [] then [[]]
    else
      var rest := Split(s[1..], sep);
      if s[0] == sep then [[]] + rest
      else [[s[0]] + rest[0]] + rest[1..]
  }

  /** `String.Join(sep, parts)`: the pieces glued together with `sep` between them. */
  function Join(parts: seq<string>, sep: char): string
  {
    if parts == [] then []
    else if |parts| == 1 then parts[0]
    else parts[0] + [sep] + Join(parts[1..], sep)
  }

  /** Gluing a character to the front of the first piece glues it to the front of
      the join. */
  lemma JoinGlued(c: char, rest: seq<string>, sep: char)
    requires |rest| >= 1
    ensures Join([[c] + rest[0]] + rest[1..], sep) == [c] + Join(rest, sep)
  {
    var parts := [[c] + rest[0]] + rest[1..];
    if |rest| > 1 {
      assert parts[1..] == rest[1..];
    }
  }

  /** An empty first piece puts a separator in front of the join of the others. */
  lemma JoinEmptyFirst(rest: seq<string>, sep: char)
    requires |rest| >= 1
    ensures Join([[]] + rest, sep) == [sep] + Join(rest, sep)
  {
    assert ([[]] + rest)[1..] == rest;
  }

  /** Joining the pieces of a split gives back the original string. */
  lemma {:induction false} JoinSplit(s: string, sep: char)
    ensures Join(Split(s, sep), sep) == s
    decreases |s|
  {
    if s != [] {
      var rest := Split(s[1..], sep);
      JoinSplit(s[1..], sep);
      if s[0] == sep {
        JoinEmptyFirst(rest, sep);
      } else {
        JoinGlued(s[0], rest, sep);
      }
      assert s == [s[0]] + s[1..];
    }
  }

  /** A string without the separator is a single piece. */
  lemma {:induction false} SplitWithoutSeparator(s: string, sep: char)
    requires sep !in s
    ensures Split(s, sep) == [s]
    decreases |s|
  {
    if s != [] {
      assert sep !in s[1..];
      SplitWithoutSeparator(s[1..], sep);
      assert s == [s[0]] + s[1..];
    }
  }

  /** A separator-free piece followed by the separator splits off as the first piece. */
  lemma {:induction false} SplitAfterPiece(p: string, sep: char, t: string)
    requires sep !in p
    ensures Split(p + [sep] + t, sep) == [p] + Split(t, sep)
    decreases |p|
  {
    var s := p + [sep] + t;
    if p == [] {
      assert s[1..] == t;
    } else {
      assert s[1..] == p[1..] + [sep] + t;
      SplitAfterPiece(p[1..], sep, t);
      assert p == [p[0]] + p[1..];
    }
  }

  /** Splitting a join of separator-free pieces gives the pieces back. */
  lemma {:induction false} SplitJoin(parts: seq<string>, sep: char)
    requires |parts| >= 1
    requires forall i :: 0 <= i < |parts| ==> sep !in parts[i]
    ensures Split(Join(parts, sep), sep) == parts
    decreases |parts|
  {
    if |parts| == 1 {
      SplitWithoutSeparator(parts[0], sep);
    } else {
      SplitJoin(parts[1..], sep);
      SplitAfterPiece(parts[0], sep, Join(parts[1..], sep));
      assert parts == [parts[0]] + parts[1..];
    }
  }

  /** `s.Replace("_", "__")`: every underscore doubled, so that WPF does not read it as
      the access-key marker of a label. */
  function EscapeUnderscores(s: string): string
  {
    if s == [] then []
    else (if s[0] == '_' then "__" else [s[0]]) + EscapeUnderscores(s[1..])
  }

  /** How WPF reads escaped label text back: a doubled underscore stands for one
      underscore; every other character stands for itself. */
  function CollapseUnderscores(s: string): string
  {
    if |s| >= 2 && s[0] == '_' && s[1] == '_' then "_" + CollapseUnderscores(s[2..])
    else if s == [] then []
    else [s[0]] + CollapseUnderscores(s[1..])
  }

  /** True when every underscore of `s` is one half of a doubled pair, so WPF finds no
      access-key marker in it. */
  predicate NoAccessKey(s: string)
    decreases |s|
  {
    if s == [] then true
    else if s[0] == '_' then |s| >= 2 && s[1] == '_' && NoAccessKey(s[2..])
    else NoAccessKey(s[1..])
  }

  /** A doubled underscore reads back as one underscore. */
  lemma CollapseDoubled(rest: string)
    ensures CollapseUnderscores("__" + rest) == "_" + CollapseUnderscores(rest)
  {
    assert ("__" + rest)[2..] == rest;
  }

  /** Any other character reads back as itself. */
  lemma CollapsePlain(c: char, rest: string)
    requires c != '_'
    ensures CollapseUnderscores([c] + rest) == [c] + CollapseUnderscores(rest)
  {
    assert ([c] + rest)[1..] == rest;
  }

  /** A non-empty string followed by `t` is its first character followed by the rest
      and then `t`. */
  lemma HeadThenRest(a: string, t: string)
    requires a != []
    ensures a + t == [a[0]] + (a[1..] + t)
  {
    assert (a + t)[1..] == a[1..] + t;
  }

  /** An escaped label reads back as the text it was made from, whatever follows it. */
  lemma {:induction false} CollapseEscaped(a: string, b: string)
    ensures CollapseUnderscores(EscapeUnderscores(a) + b) == a + CollapseUnderscores(b)
    decreases |a|
  {
    if a == [] {
      assert EscapeUnderscores(a) + b == b;
    } else {
      CollapseEscaped(a[1..], b);
      var rest := EscapeUnderscores(a[1..]) + b;
      if a[0] == '_' {
        assert EscapeUnderscores(a) + b == "__" + rest;
        CollapseDoubled(rest);
      } else {
        assert EscapeUnderscores(a) + b == [a[0]] + rest;
        CollapsePlain(a[0], rest);
      }
      HeadThenRest(a, CollapseUnderscores(b));
    }
  }

  /** Escaping never leaves an access-key marker behind. */
  lemma {:induction false} EscapedHasNoAccessKey(s: string)
    ensures NoAccessKey(EscapeUnderscores(s))
    decreases |s|
  {
    if s != [] {
      EscapedHasNoAccessKey(s[1..]);
      var rest := EscapeUnderscores(s[1..]);
      if s[0] == '_' {
        assert ("__" + rest)[2..] == rest;
      } else {
        assert ([s[0]] + rest)[1..] == rest;
      }
    }
  }

  /** Conversely, every text without an access-key marker is the escape of what it reads
      as: escaping is a one-to-one map onto such texts. */
  lemma {:induction false} EscapeCollapsed(t: string)
    requires NoAccessKey(t)
    ensures EscapeUnderscores(CollapseUnderscores(t)) == t
    decreases |t|
  {
    if t != [] {
      if t[0] == '_' {
        EscapeCollapsed(t[2..]);
        assert t == "__" + t[2..];
      } else {
        EscapeCollapsed(t[1..]);
        assert t == [t[0]] + t[1..];
      }
    }
  }

  /** The value-cache key of an argument's text box: `method.name + "#" + arg.name`. */
  function CacheKey(methodName: string, argName: string): string
  {
    methodName + "#" + argName
  }

  /** Two text boxes share a cached value only when they belong to the same method and
      the same argument, as long as method names carry no '#' (argument names may). */
  lemma CacheKeyInjective(m1: string, a1: string, m2: string, a2: string)
    requires '#' !in m1 && '#' !in m2
    requires CacheKey(m1, a1) == CacheKey(m2, a2)
    ensures m1 == m2 && a1 == a2
  {
    var k := CacheKey(m1, a1);
    assert |m1| == |m2| by {
      assert k[|m1|] == '#' && k[|m2|] == '#';
      assert forall i :: 0 <= i < |m1| ==> k[i] == m1[i] && m1[i] != '#';
      assert forall i :: 0 <= i < |m2| ==> k[i] == m2[i] && m2[i] != '#';
    }
    assert m1 == k[..|m1|] == m2;
    assert a1 == k[|m1| + 1..] == a2;
  }
}
