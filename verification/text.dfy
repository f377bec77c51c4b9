/** String helpers the campaign tracker relies on: ASCII lower-casing, substring
    search in the manner of `String.prototype.includes`, and `Array.prototype.join`
    together with the single-character `split` that undoes it. */
module Text {

  /** Lower-cases one character; only the ASCII letters A-Z are mapped. */
  function LowerChar(ch: char): char {
    if 'A' <= ch <= 'Z' then (ch as int + 32) as char else ch
  }

  /** `toLowerCase`, restricted to ASCII letters: character by character, so
      the length is kept. */
  function Lower(s: string): (r: string)
    ensures |r| == |s|
    ensures forall i :: 0 <= i < |s| ==> r[i] == LowerChar(s[i])
  {
    if s == [] then [] else [LowerChar(s[0])] + Lower(s[1..])
  }

  /** Lower-casing an already lower-cased string changes nothing. */
  lemma {:induction false} LowerIdempotent(s: string)
    ensures Lower(Lower(s)) == Lower(s)
  {
    if s != [] {
      LowerIdempotent(s[1..]);
      var t := Lower(s);
      assert t[0] == LowerChar(s[0]) && t[1..] == Lower(s[1..]);
    }
  }

  /** `needle` occurs in `hay` starting at position `i`. */
  predicate OccursAt(hay: string, needle: string, i: int) {
    0 <= i && i + |needle| <= |hay| && hay[i..i + |needle|] == needle
  }

  /** `hay.includes(needle)`: the needle is a prefix of some suffix of the hay. */
  predicate Contains(hay: string, needle: string)
    decreases |hay|
  {
    needle <= hay || (hay != [] && Contains(hay[1..], needle))
  }

  /** `Contains` agrees with the positional definition of a substring. */
  lemma {:induction false} ContainsIffOccurs(hay: string, needle: string)
    ensures Contains(hay, needle) <==> exists i :: OccursAt(hay, needle, i)
  {
    if needle <= hay {
      assert OccursAt(hay, needle, 0);
    } else if hay == [] {
      assert forall i :: !OccursAt(hay, needle, i);
    } else {
      var tail := hay[1..];
      ContainsIffOccurs(tail, needle);
      if Contains(tail, needle) {
        var i :| OccursAt(tail, needle, i);
        assert tail[i..i + |needle|] == hay[i + 1..i + 1 + |needle|];
        assert OccursAt(hay, needle, i + 1);
      }
      if exists i :: OccursAt(hay, needle, i) {
        var i :| OccursAt(hay, needle, i);
        assert tail[i - 1..i - 1 + |needle|] == hay[i..i + |needle|];
        assert OccursAt(tail, needle, i - 1);
      }
    }
  }

  /** `parts.join(sep)`. */
  function Join(parts: seq<string>, sep: string): string {
    if |parts| == 0 then ""
    else if |parts| == 1 then parts[0]
    else parts[0] + sep + Join(parts[1..], sep)
  }

  /** Joining a part in front of a non-empty list puts the separator after it. */
  lemma JoinCons(first: string, rest: seq<string>, sep: string)
    requires rest != []
    ensures Join([first] + rest, sep) == first + sep + Join(rest, sep)
  {
    assert ([first] + rest)[1..] == rest;
  }

  /** Appending one more part appends the separator and that part. */
  lemma {:induction false} JoinSnoc(parts: seq<string>, last: string, sep: string)
    requires |parts| >= 1
    ensures Join(parts + [last], sep) == Join(parts, sep) + sep + last
  {
    if |parts| == 1 {
      assert (parts + [last])[1..] == [last];
    } else {
      assert (parts + [last])[1..] == parts[1..] + [last];
      JoinSnoc(parts[1..], last, sep);
    }
  }

  /** A character that is in no part and not in the separator is not in the joined text. */
  lemma {:induction false} JoinExcludes(parts: seq<string>, sep: string, ch: char)
    requires ch !in sep
    requires forall i :: 0 <= i < |parts| ==> ch !in parts[i]
    ensures ch !in Join(parts, sep)
  {
    if |parts| > 1 {
      JoinExcludes(parts[1..], sep, ch);
    }
  }

  /** `s.split(sep)` for a one-character separator: always at least one piece,
      `""` gives `[""]`. */
  function Split(s: string, sep: char): (pieces: seq<string>)
    ensures |pieces| >= 1
    decreases |s|
  {
    if s == [] then [""]
    else
      var rest := Split(s[1..], sep);
      if s[0] == sep then [""] + rest
      else [[s[0]] + rest[0]] + rest[1..]
  }

  /** Text free of the separator glues onto the first piece of what follows. */
  lemma {:induction false} SplitPrefix(a: string, b: string, sep: char)
    requires sep !in a
    ensures Split(a + b, sep) == [a + Split(b, sep)[0]] + Split(b, sep)[1..]
  {
    if a == [] {
      var pieces := Split(b, sep);
      assert a + b == b && a + pieces[0] == pieces[0];
      assert pieces == [pieces[0]] + pieces[1..];
    } else {
      assert (a + b)[0] == a[0];
      assert (a + b)[1..] == a[1..] + b;
      SplitPrefix(a[1..], b, sep);
      assert [a[0]] + (a[1..] + Split(b, sep)[0]) == a + Split(b, sep)[0];
    }
  }

  /** Splitting undoes joining when no part contains the separator. */
  lemma {:induction false} SplitJoin(parts: seq<string>, sep: char)
    requires |parts| >= 1
    requires forall i :: 0 <= i < |parts| ==> sep !in parts[i]
    ensures Split(Join(parts, [sep]), sep) == parts
  {
    if |parts| == 1 {
      SplitPrefix(parts[0], "", sep);
      assert parts[0] + "" == parts[0];
    } else {
      var rest := Join(parts[1..], [sep]);
      SplitJoin(parts[1..], sep);
      assert Join(parts, [sep]) == parts[0] + ([sep] + rest);
      SplitPrefix(parts[0], [sep] + rest, sep);
      assert ([sep] + rest)[1..] == rest;
      assert Split([sep] + rest, sep) == [""] + parts[1..];
      assert parts[0] + "" == parts[0];
    }
  }

  /** Joining the pieces of a split with the separator gives the text back, so
      the pieces determine the text. */
  lemma {:induction false} JoinSplit(s: string, sep: char)
    ensures Join(Split(s, sep), [sep]) == s
    decreases |s|
  {
    if s != [] {
      var rest := Split(s[1..], sep);
      JoinSplit(s[1..], sep);
      if s[0] == sep {
        JoinCons("", rest, [sep]);
        assert s == [sep] + s[1..];
      } else if |rest| == 1 {
        assert Split(s, sep) == [[s[0]] + rest[0]];
        assert s == [s[0]] + s[1..];
      } else {
        var pieces := Split(s, sep);
        assert pieces == [[s[0]] + rest[0]] + rest[1..];
        JoinCons([s[0]] + rest[0], rest[1..], [sep]);
        assert rest == [rest[0]] + rest[1..];
        JoinCons(rest[0], rest[1..], [sep]);
        assert s == [s[0]] + s[1..];
      }
    }
  }
}
