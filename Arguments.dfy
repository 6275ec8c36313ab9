/**
 * The split of the raw command line done at the top of `Main`: arguments
 * starting with `--` become normalised option entries, every other argument
 * names a file.
 */
module Arguments {
  import opened Text

  /** `StartsWith("--")`. */
  predicate IsFlag(arg: string): (b: bool)
    ensures b <==> |arg| >= 2 && arg[0] == '-' && arg[1] == '-'
  {
    "--" <= arg
  }

  /** `TrimStart('-').ToLower()`. Both the flag name and its value are folded.
      The entry is never longer than the argument and is no longer a flag. */
  function Normalize(arg: string): (r: string)
    ensures |r| <= |arg|
    ensures !IsFlag(r)
  {
    var t := TrimDashes(arg);
    assert t != [] ==> Lower(t)[0] == LowerChar(t[0]);
    Lower(t)
  }

  /** A normalised entry has no leading dash and no upper-case letter; it is
      the argument with a prefix made only of dashes removed and the rest folded. */
  lemma NormalizeShape(arg: string)
    ensures var r := Normalize(arg); r == [] || r[0] != '-'
    ensures var r := Normalize(arg); forall i :: 0 <= i < |r| ==> !IsUpper(r[i])
    ensures exists k :: 0 <= k <= |arg| && (forall i :: 0 <= i < k ==> arg[i] == '-') && Normalize(arg) == Lower(arg[k..])
  {
    var t := TrimDashes(arg);
    assert t == arg[|arg| - |t|..];
  }

  /** The option bag: every flag, normalised, in command-line order. */
  function Opts(args: seq<string>): (r: seq<string>)
    ensures |r| <= |args|
  {
    if args == [] then []
    else (if IsFlag(args[0]) then [Normalize(args[0])] else []) + Opts(args[1..])
  }

  /** The file list: every other argument, unchanged, in command-line order. */
  function Files(args: seq<string>): (r: seq<string>)
    ensures |r| <= |args|
  {
    if args == [] then []
    else (if IsFlag(args[0]) then [] else [args[0]]) + Files(args[1..])
  }

  /** An entry is in the option bag exactly when it is the normalisation of some flag. */
  lemma {:induction false} OptsMembers(args: seq<string>)
    ensures forall x :: x in Opts(args) <==> exists i :: 0 <= i < |args| && IsFlag(args[i]) && Normalize(args[i]) == x
  {
    if args != [] {
      OptsMembers(args[1..]);
      assert forall i :: 1 <= i < |args| ==> args[i] == args[1..][i - 1];
    }
  }

  /** A name is in the file list exactly when it is some argument that is not a flag. */
  lemma {:induction false} FilesMembers(args: seq<string>)
    ensures forall x :: x in Files(args) <==> exists i :: 0 <= i < |args| && !IsFlag(args[i]) && args[i] == x
  {
    if args != [] {
      FilesMembers(args[1..]);
      assert forall i :: 1 <= i < |args| ==> args[i] == args[1..][i - 1];
    }
  }

  lemma SplitAppend(a: seq<string>, b: seq<string>)
    ensures Opts(a + b) == Opts(a) + Opts(b)
    ensures Files(a + b) == Files(a) + Files(b)
  {
    OptsAppend(a, b);
    FilesAppend(a, b);
  }

  lemma {:induction false} OptsAppend(a: seq<string>, b: seq<string>)
    ensures Opts(a + b) == Opts(a) + Opts(b)
  {
    if a == [] {
      assert a + b == b;
    } else {
      var ab := a + b;
      assert ab[0] == a[0] && ab[1..] == a[1..] + b;
      OptsAppend(a[1..], b);
      var head := if IsFlag(a[0]) then [Normalize(a[0])] else [];
      assert Opts(ab) == head + Opts(a[1..] + b);
      assert Opts(a) == head + Opts(a[1..]);
    }
  }

  lemma {:induction false} FilesAppend(a: seq<string>, b: seq<string>)
    ensures Files(a + b) == Files(a) + Files(b)
  {
    if a == [] {
      assert a + b == b;
    } else {
      assert (a + b)[1..] == a[1..] + b;
      FilesAppend(a[1..], b);
    }
  }

  /** No argument is lost or duplicated: the two lists together are exactly as long as the command line. */
  lemma {:induction false} SplitSizes(args: seq<string>)
    ensures |Opts(args)| + |Files(args)| == |args|
  {
    if args != [] {
      SplitSizes(args[1..]);
    }
  }

  /** Argument `i` lands in exactly one list, right after the entries that
      came from the arguments before it; so both lists keep the argument order. */
  lemma SplitPlacement(args: seq<string>, i: int)
    requires 0 <= i < |args|
    ensures IsFlag(args[i]) ==>
      Opts(args[..i + 1]) == Opts(args[..i]) + [Normalize(args[i])] && Files(args[..i + 1]) == Files(args[..i])
    ensures !IsFlag(args[i]) ==>
      Files(args[..i + 1]) == Files(args[..i]) + [args[i]] && Opts(args[..i + 1]) == Opts(args[..i])
    ensures IsFlag(args[i]) ==>
      |Opts(args[..i])| < |Opts(args)| && Opts(args)[|Opts(args[..i])|] == Normalize(args[i])
    ensures !IsFlag(args[i]) ==>
      |Files(args[..i])| < |Files(args)| && Files(args)[|Files(args[..i])|] == args[i]
  {
    assert args[..i + 1] == args[..i] + [args[i]];
    SplitAppend(args[..i], [args[i]]);
    assert args == args[..i + 1] + args[i + 1..];
    SplitAppend(args[..i + 1], args[i + 1..]);
  }

  /** The file list is empty exactly when every argument is a flag. */
  lemma {:induction false} NoFilesIffAllFlags(args: seq<string>)
    ensures Files(args) == [] <==> forall i :: 0 <= i < |args| ==> IsFlag(args[i])
  {
    if args != [] {
      NoFilesIffAllFlags(args[1..]);
      assert forall i :: 1 <= i < |args| ==> args[i] == args[1..][i - 1];
    }
  }
}
