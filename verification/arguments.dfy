/**
 * Command-line lookup of the packer: `GetOption` finds the value of an
 * option given as `-o value` or `-o=value`, `HasFlag` tests whether a flag is
 * present. Option names are matched case-insensitively.
 */
module Arguments {
  import opened Wrappers
  import opened Text

  /** The token is the option itself, spelled in its short or long form. */
  predicate IsOptionName(a: string, shortOpt: string, longOpt: string) {
    EqualsIgnoreCase(a, shortOpt) || EqualsIgnoreCase(a, longOpt)
  }

  /** The token carries its value inline: `-o=value` or `--output=value`. */
  predicate IsInlineOption(a: string, shortOpt: string, longOpt: string) {
    StartsWithIgnoreCase(a, shortOpt + "=") || StartsWithIgnoreCase(a, longOpt + "=")
  }

  /** The token mentions the option in one of the two accepted forms. */
  predicate MentionsOption(a: string, shortOpt: string, longOpt: string) {
    IsOptionName(a, shortOpt, longOpt) || IsInlineOption(a, shortOpt, longOpt)
  }

  /** Everything after the first `=` of an inline token. */
  function InlineValue(a: string): string {
    a[IndexOf(a, '=') + 1..]
  }

  /**
   * The value an option mention at position `i` stands for: the following
   * token, taken verbatim (null when there is none), or the inline value.
   */
  function MentionValue(args: seq<string>, i: nat, shortOpt: string, longOpt: string): Option<string>
    requires i < |args|
  {
    if IsOptionName(args[i], shortOpt, longOpt) then
      if i + 1 < |args| then Some(args[i + 1]) else None
    else
      Some(InlineValue(args[i]))
  }

  /** Position `i` is the first token at or after `from` that mentions the option. */
  ghost predicate IsFirstMentionFrom(args: seq<string>, from: nat, i: nat, shortOpt: string, longOpt: string) {
    && from <= i < |args|
    && MentionsOption(args[i], shortOpt, longOpt)
    && forall j :: from <= j < i ==> !MentionsOption(args[j], shortOpt, longOpt)
  }

  /**
   * The `for` loop of `GetOption`, entered at index `i`: the first mention
   * found decides the result, later ones are never looked at.
   */
  function ScanOption(args: seq<string>, i: nat, shortOpt: string, longOpt: string): (r: Option<string>)
    requires i <= |args|
    ensures (forall k :: i <= k < |args| ==> !MentionsOption(args[k], shortOpt, longOpt)) ==> r == None
    ensures forall k :: IsFirstMentionFrom(args, i, k, shortOpt, longOpt) ==> r == MentionValue(args, k, shortOpt, longOpt)
    decreases |args| - i
  {
    if i == |args| then None
    else if IsOptionName(args[i], shortOpt, longOpt) then
      if i + 1 < |args| then Some(args[i + 1]) else None
    else if IsInlineOption(args[i], shortOpt, longOpt) then
      Some(InlineValue(args[i]))
    else
      ScanOption(args, i + 1, shortOpt, longOpt)
  }

  /**
   * The value of the option named `shortOpt` or `longOpt`, taken from its
   * first mention; `None` when no token mentions it.
   */
  function GetOption(args: seq<string>, shortOpt: string, longOpt: string): (r: Option<string>)
    ensures (forall k :: 0 <= k < |args| ==> !MentionsOption(args[k], shortOpt, longOpt)) ==> r == None
    ensures forall k :: IsFirstMentionFrom(args, 0, k, shortOpt, longOpt) ==> r == MentionValue(args, k, shortOpt, longOpt)
  {
    ScanOption(args, 0, shortOpt, longOpt)
  }

  /** Some flag of `flags` equals `a`, ignoring case (the inner `foreach`). */
  function MatchesAnyFlag(a: string, flags: seq<string>): (r: bool)
    ensures r <==> exists j :: 0 <= j < |flags| && EqualsIgnoreCase(a, flags[j])
  {
    if |flags| == 0 then false
    else EqualsIgnoreCase(a, flags[0]) || MatchesAnyFlag(a, flags[1..])
  }

  /** Some argument equals some flag, ignoring case. */
  function HasFlag(args: seq<string>, flags: seq<string>): (r: bool)
    ensures r <==> exists i, j :: 0 <= i < |args| && 0 <= j < |flags| && EqualsIgnoreCase(args[i], flags[j])
  {
    if |args| == 0 then false
    else MatchesAnyFlag(args[0], flags) || HasFlag(args[1..], flags)
  }

  /**
   * When the option name contains no `=`, an inline token `opt=value` yields
   * exactly the text after `opt=`, even if that text holds further `=`s.
   */
  lemma {:induction false} InlineValueFollowsOption(a: string, opt: string)
    requires '=' !in opt
    requires StartsWithIgnoreCase(a, opt + "=")
    ensures InlineValue(a) == a[|opt| + 1..]
  {
    var p := opt + "=";
    assert CharEqualsIgnoreCase(a[|opt|], p[|opt|]);
    EqualsSignFoldsOnlyToItself(a[|opt|]);
    forall k | 0 <= k < |opt|
      ensures a[k] != '='
    {
      assert CharEqualsIgnoreCase(a[k], p[k]) && p[k] == opt[k] && opt[k] != '=';
      EqualsSignFoldsOnlyToItself(a[k]);
    }
  }

  /**
   * `-o=a=b` style: the first mention `p=v` of an option whose name holds
   * no `=` gives back `v` whole.
   */
  lemma InlineMentionGivesValue(args: seq<string>, i: nat, shortOpt: string, longOpt: string, p: string, v: string)
    requires '=' !in shortOpt && '=' !in longOpt
    requires i < |args| && args[i] == p + "=" + v
    requires EqualsIgnoreCase(p, shortOpt) || EqualsIgnoreCase(p, longOpt)
    requires forall j :: 0 <= j < i ==> !MentionsOption(args[j], shortOpt, longOpt)
    ensures GetOption(args, shortOpt, longOpt) == Some(v)
  {
    var a := args[i];
    if EqualsIgnoreCase(p, shortOpt) {
      assert a[..|shortOpt + "="|] == p + "=";
      assert StartsWithIgnoreCase(a, shortOpt + "=");
      InlineValueFollowsOption(a, shortOpt);
    } else {
      assert a[..|longOpt + "="|] == p + "=";
      assert StartsWithIgnoreCase(a, longOpt + "=");
      InlineValueFollowsOption(a, longOpt);
    }
    assert a[|p| + 1..] == v;
    assert IsFirstMentionFrom(args, 0, i, shortOpt, longOpt);
  }

  /**
   * Tokens after a complete first mention never change the result: later
   * mentions of the same option are ignored.
   */
  lemma {:induction false} LaterMentionsIgnored(args: seq<string>, rest: seq<string>, i: nat, shortOpt: string, longOpt: string)
    requires IsFirstMentionFrom(args, 0, i, shortOpt, longOpt)
    requires i + 1 < |args| || !IsOptionName(args[i], shortOpt, longOpt)
    ensures GetOption(args + rest, shortOpt, longOpt) == GetOption(args, shortOpt, longOpt)
  {
    var all := args + rest;
    assert forall j :: 0 <= j < |args| ==> all[j] == args[j];
    assert IsFirstMentionFrom(all, 0, i, shortOpt, longOpt);
  }
}
