/**
 * The script request of the Jython console panel: the file name has its
 * single backslashes doubled (Windows path separators would otherwise be read
 * as escapes by the interpreter), and the command line
 * script('file',['arg1',...]) is assembled for the console.
 */
module ScriptConsole {
  import opened Wrappers

  const BACKSLASH: char := '\\'

  /** A run of n backslashes. */
  function Backslashes(n: nat): (r: string)
    ensures |r| == n && forall i :: 0 <= i < n ==> r[i] == BACKSLASH
  {
    if n == 0 then [] else [BACKSLASH] + Backslashes(n - 1)
  }

  /**
   * protectWindowsSlashes, read left to right: a backslash is written doubled,
   * and a backslash right after it is taken as already doubled and skipped;
   * every other character is copied.
   */
  function Protected(s: string): (r: string)
    ensures |s| <= |r| <= 2 * |s|
    decreases |s|
  {
    if s == [] then []
    else if s[0] == BACKSLASH then
      if |s| > 1 && s[1] == BACKSLASH then Backslashes(2) + Protected(s[2..])
      else Backslashes(2) + Protected(s[1..])
    else [s[0]] + Protected(s[1..])
  }

  /** The loop over the characters, with the index bumped past an already-doubled backslash. */
  method ProtectWindowsSlashes(filename: string) returns (out: string)
    ensures out == Protected(filename)
  {
    out := [];
    var idx := 0;
    while idx < |filename|
      invariant 0 <= idx <= |filename|
      invariant out + Protected(filename[idx..]) == Protected(filename)
      decreases |filename| - idx
    {
      ProtectStep(filename, idx, out);
      if filename[idx] == BACKSLASH {
        out := out + Backslashes(2);
        if idx + 1 < |filename| && filename[idx + 1] == BACKSLASH {
          idx := idx + 1;
        }
      } else {
        out := out + [filename[idx]];
      }
      idx := idx + 1;
    }
    assert filename[|filename|..] == [];
  }

  /** One step of the loop keeps the loop invariant. */
  lemma ProtectStep(s: string, i: nat, out: string)
    requires i < |s|
    ensures s[i] == BACKSLASH && i + 1 < |s| && s[i + 1] == BACKSLASH ==>
      (out + Backslashes(2)) + Protected(s[i + 2..]) == out + Protected(s[i..])
    ensures s[i] == BACKSLASH && !(i + 1 < |s| && s[i + 1] == BACKSLASH) ==>
      (out + Backslashes(2)) + Protected(s[i + 1..]) == out + Protected(s[i..])
    ensures s[i] != BACKSLASH ==> (out + [s[i]]) + Protected(s[i + 1..]) == out + Protected(s[i..])
  {
    ProtectedUnfold(s, i);
  }

  /** One step of Protected at position i of s. */
  lemma ProtectedUnfold(s: string, i: nat)
    requires i < |s|
    ensures s[i] == BACKSLASH && i + 1 < |s| && s[i + 1] == BACKSLASH ==>
      Protected(s[i..]) == Backslashes(2) + Protected(s[i + 2..])
    ensures s[i] == BACKSLASH && !(i + 1 < |s| && s[i + 1] == BACKSLASH) ==>
      Protected(s[i..]) == Backslashes(2) + Protected(s[i + 1..])
    ensures s[i] != BACKSLASH ==> Protected(s[i..]) == [s[i]] + Protected(s[i + 1..])
  {
    var rest := s[i..];
    assert rest[0] == s[i];
    assert rest[1..] == s[i + 1..];
    if i + 1 < |s| {
      assert rest[1] == s[i + 1];
      assert rest[2..] == s[i + 2..];
    }
  }

  /** A maximal run of n backslashes becomes a run of 2 * ceil(n / 2). */
  lemma {:induction false} ProtectRun(n: nat, rest: string)
    requires rest == [] || rest[0] != BACKSLASH
    ensures Protected(Backslashes(n) + rest) == Backslashes(2 * ((n + 1) / 2)) + Protected(rest)
    decreases n, 1
  {
    if n == 0 {
      assert Backslashes(0) + rest == rest;
    } else if n == 1 {
      ProtectLoneBackslash(rest);
      assert 2 * ((1 + 1) / 2) == 2;
    } else {
      ProtectRunStep(n, rest);
    }
  }

  /** A run of at least two backslashes: the first two are kept and the rest of the run is protected. */
  lemma {:induction false} ProtectRunStep(n: nat, rest: string)
    requires n >= 2
    requires rest == [] || rest[0] != BACKSLASH
    ensures Protected(Backslashes(n) + rest) == Backslashes(2 * ((n + 1) / 2)) + Protected(rest)
    decreases n, 0
  {
    var tail := Backslashes(n - 2) + rest;
    var m := 2 * ((n - 1) / 2);
    RunSplit(n, rest);
    ProtectDoubleBackslash(tail);
    ProtectRun(n - 2, rest);
    RunJoin(m, Protected(rest));
    assert 2 * ((n + 1) / 2) == 2 + m;
  }

  /** The first two backslashes of a run split off. */
  lemma RunSplit(n: nat, rest: string)
    requires n >= 2
    ensures Backslashes(n) + rest == Backslashes(2) + (Backslashes(n - 2) + rest)
  {
    BackslashesAppend(2, n - 2);
  }

  /** Two more backslashes in front lengthen the run. */
  lemma RunJoin(m: nat, t: string)
    ensures Backslashes(2) + (Backslashes(m) + t) == Backslashes(2 + m) + t
  {
    BackslashesAppend(2, m);
  }

  /** A backslash not followed by another is doubled. */
  lemma ProtectLoneBackslash(t: string)
    requires t == [] || t[0] != BACKSLASH
    ensures Protected(Backslashes(1) + t) == Backslashes(2) + Protected(t)
  {
    var s := Backslashes(1) + t;
    assert s[0] == BACKSLASH && s[1..] == t;
  }

  /** A double backslash is kept and the rest is protected. */
  lemma ProtectDoubleBackslash(t: string)
    ensures Protected(Backslashes(2) + t) == Backslashes(2) + Protected(t)
  {
    var s := Backslashes(2) + t;
    assert s[0] == BACKSLASH && s[1] == BACKSLASH && s[2..] == t;
  }

  /** Runs of backslashes concatenate. */
  lemma BackslashesAppend(a: nat, b: nat)
    ensures Backslashes(a) + Backslashes(b) == Backslashes(a + b)
  {
    var l, r := Backslashes(a) + Backslashes(b), Backslashes(a + b);
    assert |l| == |r|;
    forall i | 0 <= i < |l| ensures l[i] == r[i] {
      if i < a {
        assert l[i] == Backslashes(a)[i];
      } else {
        assert l[i] == Backslashes(b)[i - a];
      }
    }
  }

  /** A lone backslash is doubled; an existing double backslash is kept. */
  lemma ProtectPathSeparators()
    ensures Protected("C:\\dir") == "C:\\\\dir"
    ensures Protected("C:\\\\dir") == "C:\\\\dir"
  {
    ProtectLonePathSeparator();
    ProtectDoublePathSeparator();
  }

  lemma ProtectLonePathSeparator()
    ensures Protected("C:\\dir") == "C:\\\\dir"
  {
    ProtectLoneBackslash("dir");
    assert "C:\\dir" == "C:" + (Backslashes(1) + "dir");
    CopyPrefix("C:", Backslashes(1) + "dir");
  }

  lemma ProtectDoublePathSeparator()
    ensures Protected("C:\\\\dir") == "C:\\\\dir"
  {
    ProtectDoubleBackslash("dir");
    assert "C:\\\\dir" == "C:" + (Backslashes(2) + "dir");
    CopyPrefix("C:", Backslashes(2) + "dir");
  }

  /** Characters other than backslashes are copied as they are. */
  lemma {:induction false} CopyPrefix(p: string, s: string)
    requires BACKSLASH !in p
    ensures Protected(p + s) == p + Protected(s)
  {
    if p != [] {
      assert p[0] in p;
      assert (p + s)[0] == p[0] && (p + s)[1..] == p[1..] + s;
      assert BACKSLASH !in p[1..] by {
        forall c | c in p[1..] ensures c != BACKSLASH {
          var i :| 0 <= i < |p[1..]| && p[1..][i] == c;
          assert p[i + 1] == c;
        }
      }
      CopyPrefix(p[1..], s);
      var t := p + s;
      assert t != [] && t[0] != BACKSLASH;
      assert Protected(t) == [t[0]] + Protected(t[1..]);
      assert p == [p[0]] + p[1..];
    } else {
      assert p + s == s;
    }
  }

  /** A string without backslashes is returned unchanged. */
  lemma NoBackslashUnchanged(s: string)
    requires BACKSLASH !in s
    ensures Protected(s) == s
  {
    CopyPrefix(s, []);
    assert s + [] == s;
  }

  /** The characters that are not backslashes, in order. */
  function NonBackslashes(s: string): (r: string)
    ensures BACKSLASH !in r
  {
    if s == [] then []
    else if s[0] == BACKSLASH then NonBackslashes(s[1..])
    else [s[0]] + NonBackslashes(s[1..])
  }

  lemma {:induction false} NonBackslashesAppend(a: string, b: string)
    ensures NonBackslashes(a + b) == NonBackslashes(a) + NonBackslashes(b)
  {
    if a != [] {
      assert (a + b)[0] == a[0] && (a + b)[1..] == a[1..] + b;
      NonBackslashesAppend(a[1..], b);
      var t := a + b;
      assert t != [];
      if a[0] != BACKSLASH {
        assert NonBackslashes(t) == [a[0]] + NonBackslashes(a[1..] + b);
        assert NonBackslashes(a) == [a[0]] + NonBackslashes(a[1..]);
      } else {
        assert NonBackslashes(t) == NonBackslashes(a[1..] + b);
        assert NonBackslashes(a) == NonBackslashes(a[1..]);
      }
    } else {
      assert a + b == b;
    }
  }

  /** Protection keeps every other character, in order, and adds none. */
  lemma {:induction false} ProtectKeepsOtherCharacters(s: string)
    ensures NonBackslashes(Protected(s)) == NonBackslashes(s)
    decreases |s|
  {
    if s != [] {
      if s[0] == BACKSLASH {
        NonBackslashesAppend(Backslashes(2), Protected(s[if |s| > 1 && s[1] == BACKSLASH then 2 else 1..]));
        assert NonBackslashes(Backslashes(2)) == [];
        if |s| > 1 && s[1] == BACKSLASH {
          ProtectKeepsOtherCharacters(s[2..]);
          assert s[1..][1..] == s[2..];
        } else {
          ProtectKeepsOtherCharacters(s[1..]);
        }
      } else {
        NonBackslashesAppend([s[0]], Protected(s[1..]));
        ProtectKeepsOtherCharacters(s[1..]);
      }
    }
  }

  /** Every run of backslashes has even length: the string splits into other characters and backslash pairs. */
  predicate EvenRuns(s: string)
    decreases |s|
  {
    s == [] ||
    (s[0] != BACKSLASH && EvenRuns(s[1..])) ||
    (|s| >= 2 && s[0] == BACKSLASH && s[1] == BACKSLASH && EvenRuns(s[2..]))
  }

  /** The output's backslash runs all have even length. */
  lemma {:induction false} ProtectedHasEvenRuns(s: string)
    ensures EvenRuns(Protected(s))
    decreases |s|
  {
    if s != [] {
      var r := Protected(s);
      if s[0] == BACKSLASH {
        var tail := if |s| > 1 && s[1] == BACKSLASH then s[2..] else s[1..];
        ProtectedHasEvenRuns(tail);
        assert r == Backslashes(2) + Protected(tail);
        assert r[2..] == Protected(tail);
      } else {
        ProtectedHasEvenRuns(s[1..]);
        assert r[1..] == Protected(s[1..]);
      }
    }
  }

  /** A string whose backslashes already come in pairs is left unchanged. */
  lemma {:induction false} EvenRunsUnchanged(s: string)
    requires EvenRuns(s)
    ensures Protected(s) == s
    decreases |s|
  {
    if s != [] {
      if s[0] == BACKSLASH {
        EvenRunsUnchanged(s[2..]);
        assert s == Backslashes(2) + s[2..];
      } else {
        EvenRunsUnchanged(s[1..]);
        assert s == [s[0]] + s[1..];
      }
    }
  }

  /** Protecting an already-protected file name changes nothing. */
  lemma ProtectIdempotent(s: string)
    ensures Protected(Protected(s)) == Protected(s)
  {
    ProtectedHasEvenRuns(s);
    EvenRunsUnchanged(Protected(s));
  }

  /** An argument in single quotes, with nothing escaped. */
  function Quoted(a: string): string
  {
    "'" + a + "'"
  }

  /** The argument items as the loop appends them: a comma before every item but the first. */
  function ArgItems(args: seq<string>): string
  {
    if args == [] then ""
    else ArgItems(args[..|args| - 1]) + (if |args| > 1 then "," else "") + Quoted(args[|args| - 1])
  }

  /** The items joined by commas, first item first: the reference reading of the list. */
  function JoinedWithCommas(args: seq<string>): string
  {
    if args == [] then ""
    else if |args| == 1 then Quoted(args[0])
    else Quoted(args[0]) + "," + JoinedWithCommas(args[1..])
  }

  /** The line handed to the console. */
  function CommandString(fileName: string, args: Option<seq<string>>): string
  {
    "script('" + Protected(fileName) + "'" +
    (match args
     case None => ""
     case Some(a) => ",[" + ArgItems(a) + "]") +
    ")"
  }

  /** requestScript: the command line for the script and its arguments (null args gives no list). */
  method RequestScript(fileName: string, args: Option<seq<string>>) returns (command: string)
    ensures command == CommandString(fileName, args)
  {
    var protectedName := ProtectWindowsSlashes(fileName);
    command := "script('" + protectedName + "'";
    if args.Some? {
      command := command + ",[";
      command := AppendArgItems(command, args.value);
      command := command + "]";
      assert command == "script('" + protectedName + "'" + (",[" + ArgItems(args.value) + "]");
    }
    command := command + ")";
  }

  /** The loop of requestScript over the arguments, appending to prefix. */
  method AppendArgItems(prefix: string, a: seq<string>) returns (command: string)
    ensures command == prefix + ArgItems(a)
  {
    command := prefix;
    for k := 0 to |a|
      invariant command == prefix + ArgItems(a[..k])
    {
      ArgItemsStep(a, k);
      ghost var before := command;
      if k > 0 {
        command := command + ",";
        assert command + Quoted(a[k]) == before + ("," + Quoted(a[k]));
      } else {
        assert command + Quoted(a[k]) == before + ("" + Quoted(a[k]));
      }
      command := command + Quoted(a[k]);
    }
    assert a[..|a|] == a;
  }

  /** One more item: a comma unless it is the first, then the quoted item. */
  lemma ArgItemsStep(a: seq<string>, k: nat)
    requires k < |a|
    ensures ArgItems(a[..k + 1]) == ArgItems(a[..k]) + ((if k > 0 then "," else "") + Quoted(a[k]))
  {
    var x := a[..k + 1];
    assert x[..|x| - 1] == a[..k] && x[|x| - 1] == a[k];
  }

  /** The loop's items are the items joined by commas: commas only between items, none trailing. */
  lemma {:induction false} ArgItemsJoined(args: seq<string>)
    ensures ArgItems(args) == JoinedWithCommas(args)
    decreases |args|
  {
    if |args| > 1 {
      var init := args[..|args| - 1];
      ArgItemsJoined(init);
      JoinedSnoc(init, args[|args| - 1]);
      assert init + [args[|args| - 1]] == args;
    }
  }

  /** Appending an item to the joined list adds a comma and the quoted item. */
  lemma {:induction false} JoinedSnoc(init: seq<string>, a: string)
    requires init != []
    ensures JoinedWithCommas(init + [a]) == JoinedWithCommas(init) + "," + Quoted(a)
    decreases |init|
  {
    var x := init + [a];
    assert x[0] == init[0];
    if |init| == 1 {
      assert x[1..] == [a];
    } else {
      assert x[1..] == init[1..] + [a];
      JoinedSnoc(init[1..], a);
      calc {
        JoinedWithCommas(x);
        Quoted(init[0]) + "," + JoinedWithCommas(init[1..] + [a]);
        Quoted(init[0]) + "," + (JoinedWithCommas(init[1..]) + "," + Quoted(a));
        (Quoted(init[0]) + "," + JoinedWithCommas(init[1..])) + "," + Quoted(a);
      }
    }
  }

  /** Without arguments the command is script('F'); with an empty array it is script('F',[]). */
  lemma CommandWithoutArguments(fileName: string)
    ensures CommandString(fileName, None) == "script('" + Protected(fileName) + "')"
    ensures CommandString(fileName, Some([])) == "script('" + Protected(fileName) + "',[])"
  {
  }

  /** Two arguments give script('F',['a','b']). */
  lemma CommandWithTwoArguments(fileName: string, a: string, b: string)
    ensures CommandString(fileName, Some([a, b])) == "script('" + Protected(fileName) + "',['" + a + "','" + b + "'])"
  {
    assert [a, b][..1] == [a];
    assert [a][..0] == [];
    assert ArgItems([a]) == Quoted(a);
    assert ArgItems([a, b]) == ArgItems([a]) + "," + Quoted(b);
    assert ArgItems([a, b]) == "'" + a + "','" + b + "'";
  }

  /**
   * Arguments are not escaped: the single argument a','b gives the same
   * command as the two arguments a and b.
   */
  lemma UnescapedArgumentsAmbiguous(fileName: string)
    ensures CommandString(fileName, Some(["a','b"])) == CommandString(fileName, Some(["a", "b"]))
  {
    CommandWithTwoArguments(fileName, "a", "b");
  }
}
