/** The per-argument records streamed to the child process (`InputData` in
    src/main.rs). A record pairs an argument with its position, its UTF-8
    byte length and its scalar-wise reversal. */
module InputRecords {
  import Utf8

  /** One argument prepared for the child. `idx` and `len` are `usize` in
      the source; a position or a byte length of a string held in memory
      always fits, so they are modelled as `nat`. */
  datatype InputData = InputData(line: string, idx: nat, len: nat, reversed: string)

  /** `chars().rev().collect()`: the scalars of `s`, last first. */
  function Reverse(s: string): (r: string)
    ensures |r| == |s|
    ensures forall i :: 0 <= i < |s| ==> r[i] == s[|s| - 1 - i]
  {
    if s == [] then [] else Reverse(s[1..]) + [s[0]]
  }

  /** Reversing twice gives back the original string. */
  lemma ReverseInvolution(s: string)
    ensures Reverse(Reverse(s)) == s
  {
    var r := Reverse(s);
    forall i | 0 <= i < |s| ensures Reverse(r)[i] == s[i] {
      assert Reverse(r)[i] == r[|r| - 1 - i];
    }
  }

  /** True when `s` reads the same from both ends. */
  predicate IsPalindrome(s: string) {
    forall i :: 0 <= i < |s| ==> s[i] == s[|s| - 1 - i]
  }

  /** Reversal leaves a string unchanged exactly when it is a palindrome. */
  lemma ReverseFixedIffPalindrome(s: string)
    ensures Reverse(s) == s <==> IsPalindrome(s)
  {
    if IsPalindrome(s) {
      forall i | 0 <= i < |s| ensures Reverse(s)[i] == s[i] {
        assert s[i] == s[|s| - 1 - i];
      }
    }
  }

  /** Reversal permutes the scalars, so the UTF-8 byte length is unchanged. */
  lemma {:induction false} ReverseKeepsLen(s: string)
    ensures Utf8.Len(Reverse(s)) == Utf8.Len(s)
  {
    if s != [] {
      ReverseKeepsLen(s[1..]);
      Utf8.LenAppend(Reverse(s[1..]), [s[0]]);
      assert Utf8.Len([s[0]]) == Utf8.Width(s[0]) by {
        assert [s[0]][1..] == [];
      }
    }
  }

  /** The record the `Run` loop builds for argument `line` at position `idx`:
      it carries the argument unchanged, its position, the byte length of
      its UTF-8 encoding, and its scalars in reverse order (which have the
      same byte length). */
  function MakeRecord(idx: nat, line: string): (r: InputData)
    ensures r.line == line && r.idx == idx
    ensures r.len == |Utf8.Encode(line)|
    ensures |line| <= r.len <= 4 * |line|
    ensures r.len == |line| <==> Utf8.IsAscii(line)
    ensures |r.reversed| == |line|
    ensures forall i :: 0 <= i < |line| ==> r.reversed[i] == line[|line| - 1 - i]
    ensures Utf8.Len(r.reversed) == r.len
  {
    ReverseKeepsLen(line);
    InputData(line, idx, Utf8.Len(line), Reverse(line))
  }

  /** True when `r` is a record the source could have built for `line` at
      `idx`: every field agrees with its definition. */
  predicate WellFormed(r: InputData) {
    r.len == Utf8.Len(r.line) && r.reversed == Reverse(r.line)
  }

  /** The records for all arguments, as `args.into_iter().enumerate()`
      feeds them to the loop: one per argument, in argument order, `idx`
      equal to the position. */
  function Records(args: seq<string>): (rs: seq<InputData>)
    ensures |rs| == |args|
    ensures forall k :: 0 <= k < |rs| ==> rs[k] == MakeRecord(k, args[k])
  {
    seq(|args|, k requires 0 <= k < |args| => MakeRecord(k, args[k]))
  }

  /** Every record carries its own argument and position, and every field
      agrees with its definition. */
  lemma RecordsWellFormed(args: seq<string>)
    ensures forall k :: 0 <= k < |args| ==>
              Records(args)[k].line == args[k] && Records(args)[k].idx == k && WellFormed(Records(args)[k])
  {
    forall k | 0 <= k < |args|
      ensures Records(args)[k].line == args[k] && Records(args)[k].idx == k && WellFormed(Records(args)[k])
    {
      var r := MakeRecord(k, args[k]);
      assert Records(args)[k] == r;
    }
  }

  /** An ASCII palindrome becomes a record whose `len` is its scalar count
      and whose `reversed` is itself. */
  lemma AsciiPalindromeRecord(idx: nat, s: string)
    requires Utf8.IsAscii(s) && IsPalindrome(s)
    ensures MakeRecord(idx, s) == InputData(s, idx, |s|, s)
  {
    ReverseFixedIffPalindrome(s);
  }

  /** Example: arguments "a" and "bb" give the
      records {a, 0, 1, a} and {bb, 1, 2, bb}. */
  lemma ExampleRecords()
    ensures Records(["a", "bb"]) ==
            [InputData("a", 0, 1, "a"), InputData("bb", 1, 2, "bb")]
  {
    var rs := Records(["a", "bb"]);
    assert rs == [rs[0], rs[1]];
    assert rs[0] == InputData("a", 0, 1, "a") by {
      AsciiPalindromeRecord(0, "a");
    }
    assert rs[1] == InputData("bb", 1, 2, "bb") by {
      AsciiPalindromeRecord(1, "bb");
    }
  }

  /** A scalar outside the ASCII range makes `len` exceed the scalar count:
      "é" is one scalar but two bytes, and its reversal is itself. */
  lemma ExampleNonAscii()
    ensures MakeRecord(0, "\U{e9}").len == 2
    ensures MakeRecord(0, "\U{e9}").reversed == "\U{e9}"
  {
    assert "\U{e9}"[1..] == [];
  }
}
