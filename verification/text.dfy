/**
 * The string handling the parser relies on: JavaScript's `split` with a
 * one-character separator, and whitespace trimming.
 */
module Text {

  /** JavaScript's `\s` character class. */
  predicate IsSpace(c: char)
  {
    var n := c as int;
    n == 0x09 || n == 0x0A || n == 0x0B || n == 0x0C || n == 0x0D || n == 0x20
    || n == 0xA0 || n == 0x1680 || (0x2000 <= n <= 0x200A) || n == 0x2028
    || n == 0x2029 || n == 0x202F || n == 0x205F || n == 0x3000 || n == 0xFEFF
  }

  /** The inverse of `Split`: the parts glued back together with `sep`. */
  function Join(parts: seq<string>, sep: char): string
    requires |parts| >= 1
    decreases |parts|
  {
    if |parts| == 1 then parts[0] else parts[0] + [sep] + Join(parts[1..], sep)
  }

  /**
   * `s.split(sep)`: the maximal runs between separators, including empty
   * ones, so that there is always one more part than there are separators.
   */
  function Split(s: string, sep: char): (parts: seq<string>)
    ensures |parts| >= 1
    ensures forall k :: 0 <= k < |parts| ==> sep !in parts[k]
    ensures Join(parts, sep) == s
    decreases |s|
  {
    if |s| == 0 then [""]
    else
      var rest := Split(s[1..], sep);
      if s[0] == sep then
        assert Join([""] + rest, sep) == [sep] + Join(rest, sep) by {
          assert ([""] + rest)[1..] == rest;
        }
        [""] + rest
      else
        var parts := [[s[0]] + rest[0]] + rest[1..];
        assert Join(parts, sep) == [s[0]] + Join(rest, sep) by {
          if |rest| > 1 {
            assert parts[1..] == rest[1..];
          }
        }
        parts
  }

  /** Splitting a separator-free prefix keeps it glued to the first part of the rest. */
  lemma {:induction false} SplitPrefix(w: string, rest: string, sep: char)
    requires sep !in w
    ensures Split(w + rest, sep) == [w + Split(rest, sep)[0]] + Split(rest, sep)[1..]
    decreases |w|
  {
    if |w| > 0 {
      assert (w + rest)[1..] == w[1..] + rest;
      SplitPrefix(w[1..], rest, sep);
      assert [w[0]] + (w[1..] + Split(rest, sep)[0]) == w + Split(rest, sep)[0];
    } else {
      assert w + rest == rest;
      var parts := Split(rest, sep);
      assert parts == [parts[0]] + parts[1..];
      assert w + parts[0] == parts[0];
    }
  }

  /** Splitting undoes joining, whenever no part contains the separator. */
  lemma {:induction false} JoinThenSplit(parts: seq<string>, sep: char)
    requires |parts| >= 1
    requires forall k :: 0 <= k < |parts| ==> sep !in parts[k]
    ensures Split(Join(parts, sep), sep) == parts
    decreases |parts|
  {
    if |parts| == 1 {
      SplitPrefix(parts[0], "", sep);
      assert parts[0] + "" == parts[0];
    } else {
      var tail := Join(parts[1..], sep);
      assert Split([sep] + tail, sep) == [""] + parts[1..] by {
        JoinThenSplit(parts[1..], sep);
        assert ([sep] + tail)[1..] == tail;
      }
      assert Join(parts, sep) == parts[0] + ([sep] + tail);
      SplitPrefix(parts[0], [sep] + tail, sep);
      assert parts[0] + "" == parts[0];
      assert [parts[0]] + parts[1..] == parts;
    }
  }

  /** The first position at or after `i` that does not hold whitespace, or `|s|`. */
  function SkipSpace(s: string, i: nat): (r: nat)
    requires i <= |s|
    ensures i <= r <= |s|
    ensures forall k :: i <= k < r ==> IsSpace(s[k])
    ensures r < |s| ==> !IsSpace(s[r])
    decreases |s| - i
  {
    if i < |s| && IsSpace(s[i]) then SkipSpace(s, i + 1) else i
  }

  /** The end of `s[lo..j]` once its trailing whitespace is dropped. */
  function SkipSpaceBack(s: string, lo: nat, j: nat): (r: nat)
    requires lo <= j <= |s|
    ensures lo <= r <= j
    ensures forall k :: r <= k < j ==> IsSpace(s[k])
    ensures r > lo ==> !IsSpace(s[r - 1])
    decreases j
  {
    if j > lo && IsSpace(s[j - 1]) then SkipSpaceBack(s, lo, j - 1) else j
  }

  /** `s` without its leading whitespace: a suffix of `s` that does not start with whitespace, after nothing but whitespace. */
  function TrimStart(s: string): (r: string)
    ensures |r| <= |s| && r == s[|s| - |r|..]
    ensures forall k :: 0 <= k < |s| - |r| ==> IsSpace(s[k])
    ensures |r| == 0 || !IsSpace(r[0])
  {
    s[SkipSpace(s, 0)..]
  }

  /** `s` without its trailing whitespace: a prefix of `s` that does not end with whitespace, before nothing but whitespace. */
  function TrimEnd(s: string): (r: string)
    ensures |r| <= |s| && r == s[..|r|]
    ensures forall k :: |r| <= k < |s| ==> IsSpace(s[k])
    ensures |r| == 0 || !IsSpace(r[|r| - 1])
  {
    s[..SkipSpaceBack(s, 0, |s|)]
  }

  /**
   * Whitespace removed from both ends: the result is a slice of `s` that
   * neither starts nor ends with whitespace, and everything cut off is
   * whitespace.
   */
  function Trim(s: string): (r: string)
    ensures |r| == 0 || (!IsSpace(r[0]) && !IsSpace(r[|r| - 1]))
    ensures var a := |s| - |TrimStart(s)|;
            && a + |r| <= |s| && r == s[a..a + |r|]
            && (forall k :: 0 <= k < a ==> IsSpace(s[k]))
            && (forall k :: a + |r| <= k < |s| ==> IsSpace(s[k]))
  {
    var a := SkipSpace(s, 0);
    s[a..SkipSpaceBack(s, a, |s|)]
  }

  /** Trimming whitespace off a word that has neither leading nor trailing whitespace gives back the word. */
  lemma TrimPadded(w: string, u: string)
    requires forall k :: 0 <= k < |w| ==> IsSpace(w[k])
    requires |u| > 0 && !IsSpace(u[0]) && !IsSpace(u[|u| - 1])
    ensures Trim(w + u) == u
  {
    var s := w + u;
    var a := SkipSpace(s, 0);
    assert s[|w|] == u[0];
    assert forall k :: 0 <= k < |w| ==> s[k] == w[k];
    assert a == |w|;
    assert s[|s| - 1] == u[|u| - 1];
    assert SkipSpaceBack(s, a, |s|) == |s|;
    assert s[|w|..|s|] == u;
  }

  /**
   * `s.replace(/^\s+|\s+$/, "")` exactly as written: without the `g` flag
   * only the FIRST match is replaced, so leading whitespace is removed when
   * there is any, and trailing whitespace only otherwise.
   */
  function StripFirstMatch(s: string): (r: string)
    ensures |s| > 0 && IsSpace(s[0]) ==> r == TrimStart(s)
    ensures (|s| == 0 || !IsSpace(s[0])) ==> r == TrimEnd(s)
  {
    if |s| > 0 && IsSpace(s[0]) then TrimStart(s) else TrimEnd(s)
  }

  /**
   * The as-written strip differs from a real trim exactly on lines that
   * have leading whitespace and, behind it, trailing whitespace.
   */
  lemma StripFirstMatchMissesTrailing(s: string)
    ensures StripFirstMatch(s) != Trim(s)
            <==> |s| > 0 && IsSpace(s[0]) && |TrimStart(s)| > 0 && IsSpace(TrimStart(s)[|TrimStart(s)| - 1])
  {
    var t := TrimStart(s);
    if |s| == 0 || !IsSpace(s[0]) {
      assert t == s;
    }
  }

  /** An indented closing brace from a file with CRLF line ends. */
  lemma IndentedCrlfBrace()
    ensures StripFirstMatch("\t}\r") == "}\r"
    ensures Trim("\t}\r") == "}"
  {
    assert TrimStart("\t}\r") == "}\r" by {
      assert "\t}\r"[1..] == "}\r";
    }
    assert TrimEnd("}\r") == "}" by {
      assert "}\r"[..1] == "}";
    }
  }

  /**
   * The space-separated fields of a hierarchy line, after trimming: the
   * pieces of the trimmed line between single spaces, none holding a space.
   */
  function Fields(line: string): (fields: seq<string>)
    ensures |fields| >= 1
    ensures forall k :: 0 <= k < |fields| ==> ' ' !in fields[k]
    ensures Join(fields, ' ') == Trim(line)
  {
    Split(Trim(line), ' ')
  }
}
