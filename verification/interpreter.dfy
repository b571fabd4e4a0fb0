/** The interpreter selection and the command each selection resolves to
    (the `Language` enum and the `match lang` table in src/main.rs). */
module Interpreter {

  /** The closed set of interpreters the editor offers. */
  datatype Language = Zsh | Bash | Python | Sh

  /** The display name of each interpreter; it doubles as the syntax
      highlighter's token and names the executable under `/usr/bin/`, so it
      is a nonempty word of lower-case ASCII letters. */
  function Name(lang: Language): (n: string)
    ensures 2 <= |n| <= 6
    ensures forall i :: 0 <= i < |n| ==> 'a' <= n[i] <= 'z'
  {
    match lang
    case Zsh => "zsh"
    case Bash => "bash"
    case Python => "python"
    case Sh => "sh"
  }

  /** Distinct interpreters have distinct names. */
  lemma NameInjective(a: Language, b: Language)
    requires Name(a) == Name(b)
    ensures a == b
  {
  }

  /** A process invocation: absolute executable path and argument vector. */
  datatype Command = Command(program: string, args: seq<string>)

  /** The position of the script text in the argument vector: right after
      `-c`. */
  function ScriptIndex(lang: Language): nat {
    if lang == Zsh then 3 else 1
  }

  /** The command that runs `script` as inline code under `lang`.

      Every interpreter sits at `/usr/bin/<name>`; the script follows `-c`;
      zsh is first told to emulate itself; every interpreter except Python
      is given `batch-script-<name>` as its `$0`. */
  function Resolve(lang: Language, script: string): (cmd: Command)
    ensures cmd.program == "/usr/bin/" + Name(lang)
    ensures |cmd.args| > ScriptIndex(lang)
    ensures cmd.args[ScriptIndex(lang) - 1] == "-c"
    ensures cmd.args[ScriptIndex(lang)] == script
    ensures cmd.args[..ScriptIndex(lang) - 1] ==
            (if lang == Zsh then ["--emulate", "zsh"] else [])
    ensures cmd.args[ScriptIndex(lang) + 1..] ==
            (if lang == Python then [] else ["batch-script-" + Name(lang)])
  {
    match lang
    case Zsh =>
      assert "batch-script-" + Name(lang) == "batch-script-zsh";
      Command("/usr/bin/zsh", ["--emulate", "zsh", "-c", script, "batch-script-zsh"])
    case Bash =>
      assert "batch-script-" + Name(lang) == "batch-script-bash";
      Command("/usr/bin/bash", ["-c", script, "batch-script-bash"])
    case Python =>
      Command("/usr/bin/python", ["-c", script])
    case Sh =>
      assert "batch-script-" + Name(lang) == "batch-script-sh";
      Command("/usr/bin/sh", ["-c", script, "batch-script-sh"])
  }

  /** The invocation table, variant by variant. */
  lemma ResolveTable(script: string)
    ensures Resolve(Zsh, script) ==
            Command("/usr/bin/zsh", ["--emulate", "zsh", "-c", script, "batch-script-zsh"])
    ensures Resolve(Bash, script) == Command("/usr/bin/bash", ["-c", script, "batch-script-bash"])
    ensures Resolve(Python, script) == Command("/usr/bin/python", ["-c", script])
    ensures Resolve(Sh, script) == Command("/usr/bin/sh", ["-c", script, "batch-script-sh"])
  {
  }

  /** Changing the script changes only the argument after `-c`: the
      executable, the number of arguments and every other argument stay. */
  lemma ScriptOnlyChangesItsSlot(lang: Language, s1: string, s2: string)
    ensures Resolve(lang, s1).program == Resolve(lang, s2).program
    ensures |Resolve(lang, s1).args| == |Resolve(lang, s2).args|
    ensures forall i :: 0 <= i < |Resolve(lang, s1).args| && i != ScriptIndex(lang) ==>
              Resolve(lang, s1).args[i] == Resolve(lang, s2).args[i]
  {
    var a1, a2 := Resolve(lang, s1).args, Resolve(lang, s2).args;
    var k := ScriptIndex(lang);
    assert a1[..k - 1] == a2[..k - 1] && a1[k - 1] == a2[k - 1] && a1[k + 1..] == a2[k + 1..];
    forall i | 0 <= i < |a1| && i != k ensures a1[i] == a2[i] {
      if i < k - 1 {
        assert a1[i] == a1[..k - 1][i] && a2[i] == a2[..k - 1][i];
      } else if i > k {
        assert a1[i] == a1[k + 1..][i - k - 1] && a2[i] == a2[k + 1..][i - k - 1];
      }
    }
  }

  /** Reads the interpreter and the script back out of a command, or
      `None` when the command is not one `Resolve` produces. Its contract
      holds by its own final check against `Resolve`; that it always
      succeeds on a resolved command, and so is a true inverse, is
      `RecoverResolve`. */
  function Recover(cmd: Command): (r: Option<(Language, string)>)
    ensures r.Some? ==> Resolve(r.value.0, r.value.1) == cmd
  {
    var lang :=
      if cmd.program == "/usr/bin/zsh" then Some(Zsh)
      else if cmd.program == "/usr/bin/bash" then Some(Bash)
      else if cmd.program == "/usr/bin/python" then Some(Python)
      else if cmd.program == "/usr/bin/sh" then Some(Sh)
      else None;
    if lang.None? then None
    else
      var k := ScriptIndex(lang.value);
      if |cmd.args| > k && Resolve(lang.value, cmd.args[k]) == cmd
      then Some((lang.value, cmd.args[k]))
      else None
  }

  datatype Option<T> = None | Some(value: T)

  /** Resolution loses nothing: the interpreter and the script can be read
      back from the command. */
  lemma RecoverResolve(lang: Language, script: string)
    ensures Recover(Resolve(lang, script)) == Some((lang, script))
  {
  }

  /** Distinct selections or distinct scripts give distinct commands. */
  lemma ResolveInjective(l1: Language, s1: string, l2: Language, s2: string)
    requires Resolve(l1, s1) == Resolve(l2, s2)
    ensures l1 == l2 && s1 == s2
  {
    RecoverResolve(l1, s1);
    RecoverResolve(l2, s2);
  }
}
