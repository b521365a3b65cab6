/**
 * String helpers with the semantics of the Python built-ins the pipeline uses:
 * `str.split` with a one-character separator, `str.endswith`, and the POSIX
 * flavour of `os.path.basename`, `os.path.dirname` and `os.path.splitext`.
 */
module Text {

  /** `sep.join(parts)`. */
  function Join(parts: seq<string>, sep: char): string
  {
    if |parts| == 0 then ""
    else if |parts| == 1 then parts[0]
    else parts[0] + [sep] + Join(parts[1..], sep)
  }

  /** A character that is neither the separator nor in any part is not in the joined string. */
  lemma {:induction false} JoinAvoids(parts: seq<string>, sep: char, c: char)
    requires c != sep && forall k :: 0 <= k < |parts| ==> c !in parts[k]
    ensures c !in Join(parts, sep)
    decreases |parts|
  {
    if |parts| > 1 {
      JoinAvoids(parts[1..], sep, c);
      assert c !in parts[0];
    }
  }

  /** `s.split(sep)`: the pieces between the separators, never fewer than one. */
  function Split(s: string, sep: char): (r: seq<string>)
    ensures |r| >= 1
    ensures forall k :: 0 <= k < |r| ==> sep !in r[k]
    ensures Join(r, sep) == s
    decreases |s|
  {
    if s == [] then [[]]
    else
      var t := Split(s[1..], sep);
      if s[0] == sep then
        assert s == [sep] + Join(t, sep);
        [[]] + t
      else
        var r := [[s[0]] + t[0]] + t[1..];
        assert r[1..] == t[1..];
        assert s == [s[0]] + s[1..];
        r
  }

  lemma {:induction false} SplitWithoutSeparator(s: string, sep: char)
    requires sep !in s
    ensures Split(s, sep) == [s]
    decreases |s|
  {
    if s != [] {
      SplitWithoutSeparator(s[1..], sep);
    }
  }

  /** A separator after a separator-free prefix ends the first piece. */
  lemma {:induction false} SplitAtFirstSeparator(a: string, sep: char, b: string)
    requires sep !in a
    ensures Split(a + [sep] + b, sep) == [a] + Split(b, sep)
    decreases |a|
  {
    if a == [] {
      assert a + [sep] + b == [sep] + b;
      assert ([sep] + b)[1..] == b;
    } else {
      var s := a + [sep] + b;
      assert s[0] == a[0] != sep;
      assert s[1..] == a[1..] + [sep] + b;
      SplitAtFirstSeparator(a[1..], sep, b);
      var t := Split(s[1..], sep);
      assert t[0] == a[1..] && t[1..] == Split(b, sep);
      assert Split(s, sep) == [[a[0]] + t[0]] + t[1..];
      assert [a[0]] + a[1..] == a;
    }
  }

  lemma AppendAssociates<T>(x: seq<T>, y: seq<T>, z: seq<T>)
    ensures x + (y + z) == (x + y) + z
  {
  }

  /** A separator between two strings splits into the pieces of each. */
  lemma {:induction false} SplitAppend(a: string, sep: char, b: string)
    ensures Split(a + [sep] + b, sep) == Split(a, sep) + Split(b, sep)
    decreases |a|
  {
    var s := a + [sep] + b;
    var u := Split(b, sep);
    if a == [] {
      assert s == [sep] + b;
      SplitCons(sep, b, sep);
    } else {
      var x := a[1..] + [sep] + b;
      assert s == [a[0]] + x;
      assert a == [a[0]] + a[1..];
      SplitAppend(a[1..], sep, b);
      SplitCons(a[0], x, sep);
      SplitCons(a[0], a[1..], sep);
      var t := Split(a[1..], sep);
      if a[0] == sep {
        AppendAssociates([[]], t, u);
      } else {
        FirstPieceOfAppend([a[0]], t, u);
      }
    }
  }

  /** One step of `Split`: a leading separator starts a new empty piece, any other character
      joins the first piece. */
  lemma SplitCons(c: char, x: string, sep: char)
    ensures Split([c] + x, sep) ==
      if c == sep then [[]] + Split(x, sep) else [[c] + Split(x, sep)[0]] + Split(x, sep)[1..]
  {
    assert ([c] + x)[0] == c && ([c] + x)[1..] == x;
  }

  /** Growing the first piece commutes with appending more pieces. */
  lemma FirstPieceOfAppend(head: string, t: seq<string>, u: seq<string>)
    requires |t| >= 1
    ensures [head + (t + u)[0]] + (t + u)[1..] == ([head + t[0]] + t[1..]) + u
  {
    assert (t + u)[0] == t[0] && (t + u)[1..] == t[1..] + u;
  }

  /** Splitting undoes joining when no part holds the separator. */
  lemma {:induction false} SplitJoin(parts: seq<string>, sep: char)
    requires |parts| >= 1
    requires forall k :: 0 <= k < |parts| ==> sep !in parts[k]
    ensures Split(Join(parts, sep), sep) == parts
    decreases |parts|
  {
    if |parts| == 1 {
      SplitWithoutSeparator(parts[0], sep);
    } else {
      SplitJoin(parts[1..], sep);
      SplitAtFirstSeparator(parts[0], sep, Join(parts[1..], sep));
      assert [parts[0]] + parts[1..] == parts;
    }
  }

  /** `s.split(sep)[0]`: the prefix of `s` before its first `sep`. */
  function BeforeFirst(s: string, sep: char): (r: string)
    ensures sep !in r
    ensures r <= s
    ensures sep !in s ==> r == s
    ensures |r| < |s| ==> s[|r|] == sep
  {
    var parts := Split(s, sep);
    JoinFirstPiece(parts, sep);
    parts[0]
  }

  /** The first piece starts the joined string and is followed by the separator when there are more. */
  lemma {:induction false} JoinFirstPiece(parts: seq<string>, sep: char)
    requires |parts| >= 1
    ensures parts[0] <= Join(parts, sep)
    ensures |parts| > 1 ==> |Join(parts, sep)| > |parts[0]| && Join(parts, sep)[|parts[0]|] == sep
    ensures |parts| == 1 ==> Join(parts, sep) == parts[0]
  {
  }

  /** `s.endswith(suffix)`. */
  predicate EndsWith(s: string, suffix: string)
  {
    |suffix| <= |s| && s[|s| - |suffix|..] == suffix
  }

  /** `s.startswith(prefix)`. */
  predicate StartsWith(s: string, prefix: string)
  {
    prefix <= s
  }

  /** The index just after the last `c` in `s`, or 0 when there is none (`s.rfind(c) + 1`). */
  function AfterLast(s: string, c: char): (i: nat)
    ensures i <= |s|
    ensures c !in s[i..]
    ensures i > 0 ==> s[i - 1] == c
    ensures c !in s ==> i == 0
    decreases |s|
  {
    if s == [] then 0
    else if s[|s| - 1] == c then |s|
    else
      var i := AfterLast(s[..|s| - 1], c);
      assert s[i..] == s[..|s| - 1][i..] + [s[|s| - 1]];
      i
  }

  /** `os.path.basename(p)`: everything after the last slash. */
  function Basename(p: string): (r: string)
    ensures '/' !in r
    ensures EndsWith(p, r)
    ensures '/' !in p ==> r == p
  {
    p[AfterLast(p, '/')..]
  }

  /** The base name is all of `p` or starts just after a slash, so it is the longest slash-free suffix. */
  lemma BasenameAfterSlash(p: string)
    ensures var r := Basename(p);
      |r| < |p| ==> p[|p| - |r| - 1] == '/'
  {
    var i := AfterLast(p, '/');
    assert |Basename(p)| == |p| - i;
  }

  /** `s.rstrip(c)`. */
  function RStrip(s: string, c: char): (r: string)
    ensures r <= s
    ensures r == [] || r[|r| - 1] != c
    ensures forall k :: |r| <= k < |s| ==> s[k] == c
    decreases |s|
  {
    if s == [] || s[|s| - 1] != c then s else RStrip(s[..|s| - 1], c)
  }

  /** `os.path.dirname(p)`: everything up to the last slash, with trailing slashes removed
      unless the head consists of slashes only. */
  function Dirname(p: string): (r: string)
    ensures r <= p
    ensures r == "" <==> '/' !in p
  {
    TrimHead(p[..AfterLast(p, '/')])
  }

  /** The head of a path less its trailing slashes, unless it is slashes only. */
  function TrimHead(head: string): string
  {
    if head != "" && exists k :: 0 <= k < |head| && head[k] != '/' then RStrip(head, '/') else head
  }

  /** Trimming keeps a prefix and removes only slashes; what it removes ends a non-empty result
      in a character other than a slash, unless the head is slashes only and is kept whole. */
  lemma TrimHeadShape(head: string)
    ensures var r := TrimHead(head);
      && |r| <= |head|
      && (forall k :: |r| <= k < |head| ==> head[k] == '/')
      && (r != "" && r[|r| - 1] == '/' ==> |r| == |head| && forall k :: 0 <= k < |r| ==> r[k] == '/')
  {
    if head != "" && exists k :: 0 <= k < |head| && head[k] != '/' {
      var k :| 0 <= k < |head| && head[k] != '/';
      assert |RStrip(head, '/')| > k;
    }
  }

  /** The directory part reaches up to the last slash, less the slashes just before it: a
      non-empty result ends in a character other than a slash, unless the whole head is slashes. */
  lemma DirnameShape(p: string)
    ensures var r := Dirname(p);
      && |r| <= AfterLast(p, '/')
      && (forall k :: |r| <= k < AfterLast(p, '/') ==> p[k] == '/')
      && (r != "" && r[|r| - 1] == '/' ==> |r| == AfterLast(p, '/') && forall k :: 0 <= k < |r| ==> r[k] == '/')
  {
    var head := p[..AfterLast(p, '/')];
    TrimHeadShape(head);
    assert forall k :: 0 <= k < |head| ==> p[k] == head[k];
  }

  /** `dirname(d + c + "/" + f)` is `d + c` when `c` ends in a character other than a slash and
      the file name `f` has none. */
  lemma DirnameOf(d: string, c: string, f: string)
    requires c != "" && c[|c| - 1] != '/' && '/' !in f
    ensures Dirname(d + c + "/" + f) == d + c
  {
    var p := d + c + "/" + f;
    assert p == (d + c) + ['/'] + f;
    AfterLastOf(d + c, '/', f);
    var head := p[..|d| + |c| + 1];
    assert head == d + c + "/";
    assert head[|d| + |c| - 1] == c[|c| - 1];
    var r := RStrip(head, '/');
    assert |r| >= |d| + |c|;
    assert r == head[..|d| + |c|];
    assert head[..|d| + |c|] == d + c;
  }

  /** `basename(d + c)` is `c` when `c` has no slash and `d` is empty or ends in one. */
  lemma BasenameOf(d: string, c: string)
    requires '/' !in c && (d == "" || d[|d| - 1] == '/')
    ensures Basename(d + c) == c
  {
    if d == "" {
      assert d + c == c;
    } else {
      var d' := d[..|d| - 1];
      assert d + c == d' + ['/'] + c;
      AfterLastOf(d', '/', c);
      assert (d + c)[|d|..] == c;
    }
  }

  /** `os.path.splitext(b)[0]` for a file name `b` without slashes: the part before the last
      dot, unless that dot is only preceded by dots (a leading-dot name has no extension). */
  function DropExtension(b: string): (r: string)
    ensures r <= b
    ensures '.' !in b ==> r == b
    ensures r != b ==> |r| < |b| && b[|r|] == '.' && '.' !in b[|r| + 1..]
    ensures r != b ==> exists k :: 0 <= k < |r| && r[k] != '.'
    ensures (exists k :: 0 <= k < AfterLast(b, '.') - 1 && b[k] != '.') ==> r == b[..AfterLast(b, '.') - 1]
  {
    var dot := AfterLast(b, '.');
    if dot > 0 && exists k :: 0 <= k < dot - 1 && b[k] != '.' then b[..dot - 1] else b
  }

  /** `os.path.splitext(os.path.basename(p))[0]`: the file stem of a path. */
  function Stem(p: string): (r: string)
    ensures '/' !in r
    ensures r <= Basename(p)
  {
    DropExtension(Basename(p))
  }

  /** The index after the last `c` in `s + [c] + t` is just after that `c` when `t` has none. */
  lemma AfterLastOf(s: string, c: char, t: string)
    requires c !in t
    ensures AfterLast(s + [c] + t, c) == |s| + 1
  {
    var u := s + [c] + t;
    var i := AfterLast(u, c);
    assert u[|s|] == c;
  }

  /** The stem of `n.e` is `n` when the extension has no dot and `n` is not only dots. */
  lemma StemOf(n: string, e: string)
    requires '/' !in n && '/' !in e && '.' !in e
    requires exists k :: 0 <= k < |n| && n[k] != '.'
    ensures Stem(n + "." + e) == n
  {
    var b := n + "." + e;
    assert '/' !in b by {
      forall k | 0 <= k < |b| ensures b[k] != '/' {
        if k < |n| { assert b[k] == n[k]; } else if k > |n| { assert b[k] == e[k - |n| - 1]; }
      }
    }
    assert Basename(b) == b;
    AfterLastOf(n, '.', e);
    var k :| 0 <= k < |n| && n[k] != '.';
    assert b[k] == n[k];
    assert b[..|n|] == n;
  }

  /** The concatenation of all parts, as successive `f.write` calls leave them in a file. */
  function Concat(parts: seq<string>): string
  {
    if parts == [] then "" else parts[0] + Concat(parts[1..])
  }

  lemma ConcatAppend(parts: seq<string>, last: string)
    ensures Concat(parts + [last]) == Concat(parts) + last
  {
    if parts != [] {
      assert (parts + [last])[1..] == parts[1..] + [last];
      ConcatAppend(parts[1..], last);
    }
  }

  /** The lines of a text file as Python's `csv` reader sees them: the pieces between
      newlines, where a final newline does not start another line. */
  function Lines(text: string): (r: seq<string>)
    ensures forall k :: 0 <= k < |r| ==> '\n' !in r[k]
    ensures text == "" ==> r == []
    ensures text != "" && text[|text| - 1] != '\n' ==> r == Split(text, '\n')
    ensures text != "" && text[|text| - 1] == '\n' ==> r + [""] == Split(text, '\n')
  {
    var pieces := Split(text, '\n');
    SplitLast(text, '\n');
    if pieces[|pieces| - 1] == "" then pieces[..|pieces| - 1] else pieces
  }

  /** The last piece of a split is empty exactly when the text is empty or ends in the separator. */
  lemma {:induction false} SplitLast(s: string, sep: char)
    ensures var r := Split(s, sep); r[|r| - 1] == "" <==> s == "" || s[|s| - 1] == sep
    decreases |s|
  {
    if s != [] {
      var t := Split(s[1..], sep);
      SplitLast(s[1..], sep);
      if s[0] != sep && |s| > 1 {
        assert s[|s| - 1] == s[1..][|s[1..]| - 1];
      }
    }
  }

  /** Newline-terminated lines followed by any text split into those lines and the pieces of the text. */
  lemma {:induction false} SplitTerminatedThen(lines: seq<string>, last: string)
    requires forall k :: 0 <= k < |lines| ==> '\n' !in lines[k]
    ensures Split(Concat(seq(|lines|, k requires 0 <= k < |lines| => lines[k] + "\n")) + last, '\n')
      == lines + Split(last, '\n')
    decreases |lines|
  {
    var terminated := seq(|lines|, k requires 0 <= k < |lines| => lines[k] + "\n");
    if lines == [] {
      assert terminated == [];
      assert Concat(terminated) + last == last;
    } else {
      var rest := seq(|lines| - 1, k requires 0 <= k < |lines| - 1 => lines[1..][k] + "\n");
      assert terminated[1..] == rest;
      assert Concat(terminated) == lines[0] + "\n" + Concat(rest);
      AppendAssociates(lines[0] + "\n", Concat(rest), last);
      SplitTerminatedThen(lines[1..], last);
      SplitAtFirstSeparator(lines[0], '\n', Concat(rest) + last);
      assert [lines[0]] + lines[1..] == lines;
      AppendAssociates([lines[0]], lines[1..], Split(last, '\n'));
    }
  }

  /** A text whose last line has no newline still reads back with that line last. */
  lemma LinesOfUnterminatedLast(lines: seq<string>, last: string)
    requires forall k :: 0 <= k < |lines| ==> '\n' !in lines[k]
    requires last != "" && '\n' !in last
    ensures Lines(Concat(seq(|lines|, k requires 0 <= k < |lines| => lines[k] + "\n")) + last) == lines + [last]
  {
    SplitTerminatedThen(lines, last);
    SplitWithoutSeparator(last, '\n');
  }

  /** One row as `csv.reader(f, delimiter='|')` yields it (quoting is not modelled): the fields
      between the delimiters, and no field at all for a blank line. */
  function CsvRow(line: string): (r: seq<string>)
    ensures r == [] <==> line == ""
    ensures Join(r, '|') == line
    ensures forall k :: 0 <= k < |r| ==> '|' !in r[k]
  {
    if line == "" then [] else Split(line, '|')
  }

  /** The rows of a `|`-delimited text, one per line. */
  function CsvRows(text: string): seq<seq<string>>
  {
    var lines := Lines(text);
    seq(|lines|, k requires 0 <= k < |lines| => CsvRow(lines[k]))
  }

  /** There is one row per line; each row joins back to its line, holds no delimiter in a field,
      and is empty exactly for a blank line. */
  lemma CsvRowsOfLines(text: string)
    ensures var rows := CsvRows(text);
      && |rows| == |Lines(text)|
      && (forall k :: 0 <= k < |rows| ==> Join(rows[k], '|') == Lines(text)[k])
      && (forall k :: 0 <= k < |rows| ==> (rows[k] == [] <==> Lines(text)[k] == ""))
      && (forall k, j :: 0 <= k < |rows| && 0 <= j < |rows[k]| ==> '|' !in rows[k][j])
  {
    var rows := CsvRows(text);
    forall k | 0 <= k < |rows|
      ensures Join(rows[k], '|') == Lines(text)[k] && (rows[k] == [] <==> Lines(text)[k] == "")
      ensures forall j :: 0 <= j < |rows[k]| ==> '|' !in rows[k][j]
    {
      assert rows[k] == CsvRow(Lines(text)[k]);
    }
  }

  /** Newline-terminated rows with no other newline read back as their bodies, one line each. */
  lemma LinesOfRows(rows: seq<string>)
    requires forall k :: 0 <= k < |rows| ==> |rows[k]| > 0 && rows[k][|rows[k]| - 1] == '\n'
    requires forall k :: 0 <= k < |rows| ==> '\n' !in rows[k][..|rows[k]| - 1]
    ensures |Lines(Concat(rows))| == |rows|
    ensures forall k :: 0 <= k < |rows| ==> Lines(Concat(rows))[k] + "\n" == rows[k]
  {
    var bodies := seq(|rows|, k requires 0 <= k < |rows| => rows[k][..|rows[k]| - 1]);
    forall k | 0 <= k < |rows| ensures bodies[k] + "\n" == rows[k] {
      assert rows[k] == rows[k][..|rows[k]| - 1] + [rows[k][|rows[k]| - 1]];
    }
    assert seq(|bodies|, k requires 0 <= k < |bodies| => bodies[k] + "\n") == rows;
    LinesOfTerminatedLines(bodies);
  }

  /** Text made of newline-terminated lines reads back as exactly those lines. */
  lemma {:induction false} LinesOfTerminatedLines(lines: seq<string>)
    requires forall k :: 0 <= k < |lines| ==> '\n' !in lines[k]
    ensures Lines(Concat(seq(|lines|, k requires 0 <= k < |lines| => lines[k] + "\n"))) == lines
  {
    var terminated := seq(|lines|, k requires 0 <= k < |lines| => lines[k] + "\n");
    SplitTerminatedThen(lines, "");
    assert Concat(terminated) + "" == Concat(terminated);
    assert (lines + [""])[..|lines|] == lines;
  }
}
