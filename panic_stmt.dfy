/**
  The replacement text that trivial-elim builds for an eliminated function body:
  a block whose only content is a `panic` call guarded by `#ifdef _LINUX_KERNEL_H`,
  so that outside a kernel build the block compiles to nothing.
 */
module PanicStmt {
  import opened Wrappers

  /** The three fixed fragments of the template, in output order. */
  const Prefix: string := "{\n" + GuardLine + PanicOpen
  const Middle: string := ": Execute eliminated function("
  const Suffix: string := PanicClose + EndifLine + "\n}"

  /** The guard macro line and the line that closes it. */
  const GuardLine: string := "#ifdef _LINUX_KERNEL_H"
  const EndifLine: string := "#endif"

  /** The text around the message on the line of the `panic` call. */
  const PanicOpen: string := "\n  panic(\""
  const PanicClose: string := ").\");\n"

  /** Characters the template adds around the file and function names. */
  const Overhead: nat := 78

  /** The stub: the file name and the function name spliced between the three fragments. */
  function CreatePanicStmt(fileName: string, funcName: string): (stmt: string)
    ensures |stmt| == |fileName| + |funcName| + Overhead
  {
    Prefix + fileName + Middle + funcName + Suffix
  }

  /** The stub is the two names spliced, each at a fixed offset, between the three fragments. */
  lemma StubLayout(fileName: string, funcName: string)
    ensures var stmt := CreatePanicStmt(fileName, funcName);
      var m := |Prefix| + |fileName|;
      var n := m + |Middle|;
      && |Prefix| == 34 && |Middle| == 30 && |Suffix| == 14
      && stmt[..|Prefix|] == Prefix
      && stmt[|Prefix|..m] == fileName
      && stmt[m..n] == Middle
      && stmt[n..n + |funcName|] == funcName
      && stmt[n + |funcName|..] == Suffix
      && stmt[|Prefix|..|stmt| - |Suffix|] == fileName + Middle + funcName
  {
    Parts5(Prefix, fileName, Middle, funcName, Suffix);
  }

  /**
    The stub is one brace block: `{` and a line break open it, a line break and `}` close it,
    the guard line follows the opening brace, `#endif` precedes the closing brace and comes
    after the guard, and between the two sits exactly the text
    `\n  panic("<file>: Execute eliminated function(<name>).");\n`.
   */
  lemma StubShape(fileName: string, funcName: string)
    ensures var stmt := CreatePanicStmt(fileName, funcName);
      var guardEnd := 2 + |GuardLine|;
      var endifStart := |stmt| - 2 - |EndifLine|;
      && stmt[0] == '{' && stmt[1] == '\n' && stmt[|stmt| - 2] == '\n' && stmt[|stmt| - 1] == '}'
      && guardEnd < endifStart
      && stmt[2..guardEnd] == GuardLine
      && stmt[endifStart..|stmt| - 2] == EndifLine
      && stmt[guardEnd..endifStart] == "\n  panic(\"" + fileName + Middle + funcName + ").\");\n"
  {
    Regroup9("{\n", GuardLine, PanicOpen, fileName, Middle, funcName, PanicClose, EndifLine, "\n}");
    var panicLine := PanicOpen + fileName + Middle + funcName + PanicClose;
    Parts5("{\n", GuardLine, panicLine, EndifLine, "\n}");
  }

  /** Each part of a five-part concatenation sits at the offset the parts before it fix. */
  lemma Parts5(a: string, b: string, c: string, d: string, e: string)
    ensures var s := a + b + c + d + e;
      var i, j, k := |a| + |b|, |a| + |b| + |c|, |a| + |b| + |c| + |d|;
      && s[..|a|] == a && s[|a|..i] == b && s[i..j] == c && s[j..k] == d && s[k..] == e
      && s[|a|..k] == b + c + d
  {
    var s := a + b + c + d + e;
    assert s[|a|..] == b + c + d + e;
  }

  /** The three fragments of the template regrouped around the line of the `panic` call. */
  lemma Regroup9(open: string, guard: string, po: string, f: string, m: string, n: string,
                 pc: string, endif: string, close: string)
    ensures (open + guard + po) + f + m + n + (pc + endif + close)
         == open + guard + (po + f + m + n + pc) + endif + close
  {
  }

  /** Regrouping a concatenation of five strings. */
  lemma Regroup(a: string, b: string, c: string, d: string, e: string)
    ensures a + (b + c + d) + e == a + b + c + d + e
    ensures (a + b) + (c + d + e) == a + b + c + d + e
  {
  }

  /** Last index at which `c` occurs in `s`, if any. */
  function LastIndexOf(s: string, c: char): (r: Option<nat>)
    ensures r.None? ==> forall j :: 0 <= j < |s| ==> s[j] != c
    ensures r.Some? ==> r.value < |s| && s[r.value] == c
    ensures r.Some? ==> forall j :: r.value < j < |s| ==> s[j] != c
    decreases |s|
  {
    if s == [] then None
    else if s[|s| - 1] == c then Some(|s| - 1)
    else LastIndexOf(s[..|s| - 1], c)
  }

  /**
    Reads the file and function names back out of a stub. The two names are split at the last
    ':' of the message, which is the ':' that opens the middle fragment whenever the function
    name holds no ':' (no C identifier does).
   */
  function ParseStub(text: string): (r: Option<(string, string)>)
    ensures r.Some? ==> ':' !in r.value.1
  {
    if |text| < |Prefix| + |Suffix| || text[..|Prefix|] != Prefix || text[|text| - |Suffix|..] != Suffix then
      None
    else
      var message := text[|Prefix|..|text| - |Suffix|];
      match LastIndexOf(message, ':')
      case None => None
      case Some(k) =>
        if Middle <= message[k..] then Some((message[..k], message[k + |Middle|..])) else None
  }

  /** The middle fragment holds exactly one ':', its first character. */
  lemma MiddleColon()
    ensures Middle[0] == ':'
    ensures forall i :: 1 <= i < |Middle| ==> Middle[i] != ':'
  {
  }

  /** In `<file>` + Middle + `<name>` the last ':' opens Middle, when `<name>` holds no ':'. */
  lemma {:induction false} LastColonOpensMiddle(fileName: string, funcName: string)
    requires ':' !in funcName
    ensures LastIndexOf(fileName + Middle + funcName, ':') == Some(|fileName|)
  {
    var message := fileName + Middle + funcName;
    MiddleColon();
    var f := |fileName|;
    assert message[f] == ':';
    var k := LastIndexOf(message, ':').value;
    assert k >= f;
    assert k < f + |Middle| ==> message[k] == Middle[k - f];
  }

  /** Parsing a stub gives back the names it was built from, when the function name has no ':'. */
  lemma {:induction false} StubRoundTrip(fileName: string, funcName: string)
    requires ':' !in funcName
    ensures ParseStub(CreatePanicStmt(fileName, funcName)) == Some((fileName, funcName))
  {
    var text := CreatePanicStmt(fileName, funcName);
    StubLayout(fileName, funcName);
    var message := fileName + Middle + funcName;
    LastColonOpensMiddle(fileName, funcName);
    var k := |fileName|;
    assert message[k..] == Middle + funcName;
    assert message[..k] == fileName;
    assert message[k + |Middle|..] == funcName;
  }

  /** A text that starts with `p` and ends with `q` is `p`, then what lies between, then `q`. */
  lemma Reassemble(text: string, p: string, q: string)
    requires |text| >= |p| + |q|
    requires text[..|p|] == p && text[|text| - |q|..] == q
    ensures text == p + text[|p|..|text| - |q|] + q
  {
  }

  /** Whatever ParseStub accepts is exactly the stub of the names it returns. */
  lemma {:induction false} ParseStubSound(text: string)
    requires ParseStub(text).Some?
    ensures CreatePanicStmt(ParseStub(text).value.0, ParseStub(text).value.1) == text
  {
    var message := text[|Prefix|..|text| - |Suffix|];
    var k := LastIndexOf(message, ':').value;
    var fileName, funcName := message[..k], message[k + |Middle|..];
    assert ParseStub(text) == Some((fileName, funcName));
    assert message[k..][..|Middle|] == Middle;
    assert message[k..k + |Middle|] == message[k..][..|Middle|];
    Split3(message, k, |Middle|);
    Reassemble(text, Prefix, Suffix);
    Regroup(Prefix, fileName, Middle, funcName, Suffix);
  }

  /** Cutting a sequence at `k` and at `k + len` and joining the three pieces gives it back. */
  lemma Split3(s: string, k: nat, len: nat)
    requires k + len <= |s|
    ensures s == s[..k] + s[k..k + len] + s[k + len..]
  {
  }

  /** Two stubs are equal only if built from equal names, as long as function names have no ':'. */
  lemma StubInjective(file1: string, name1: string, file2: string, name2: string)
    requires ':' !in name1 && ':' !in name2
    requires CreatePanicStmt(file1, name1) == CreatePanicStmt(file2, name2)
    ensures file1 == file2 && name1 == name2
  {
    StubRoundTrip(file1, name1);
    StubRoundTrip(file2, name2);
  }

  /**
    Without that condition stubs collide: a function name that itself holds the middle
    fragment gives the same stub as a different file name with a shorter function name.
   */
  lemma CollidingStubs(a: string, b: string, c: string)
    ensures (a, b + Middle + c) != (a + Middle + b, c)
    ensures CreatePanicStmt(a, b + Middle + c) == CreatePanicStmt(a + Middle + b, c)
  {
    assert |a + Middle + b| > |a|;
    Regroup(a, Middle, b, Middle, c);
    SameMessageSameStub(a, b + Middle + c, a + Middle + b, c);
  }

  /** The stub is determined by its message `<file>` + Middle + `<name>` alone. */
  lemma SameMessageSameStub(file1: string, name1: string, file2: string, name2: string)
    requires file1 + Middle + name1 == file2 + Middle + name2
    ensures CreatePanicStmt(file1, name1) == CreatePanicStmt(file2, name2)
  {
    Regroup(Prefix, file1, Middle, name1, Suffix);
    Regroup(Prefix, file2, Middle, name2, Suffix);
  }
}
