/**
 * The check that a note title or category name can be used as a file name
 * (`getForbiddenSequence`, src/api-providers/FileSystemApiProvider/helper.ts).
 */
module Forbidden {
  import opened Wrappers
  import opened Strings

  /** One test of the chain: a prefix the name may not start with, or a sequence it may
      not contain anywhere. */
  datatype Check = Prefix(prefix: string) | Infix(needle: string)

  /** The tests, in the order the chain runs them. */
  const Checks: seq<Check> :=
    [Prefix("~"), Prefix("."), Infix(".."), Infix("/"), Infix("\\"), Infix("*")]

  /** What the chain reports when a test fails. */
  function Message(c: Check): string
  {
    match c
    case Prefix(p) => "(starts with) " + p
    case Infix(t) => t
  }

  /** The six strings the chain can report. */
  const Messages: set<string> :=
    {"(starts with) ~", "(starts with) .", "..", "/", "\\", "*"}

  /** `name` fails test `c`. */
  ghost predicate Violates(name: string, c: Check)
  {
    match c
    case Prefix(p) => StartsWith(name, p)
    case Infix(t) => Contains(name, t)
  }

  /** `getForbiddenSequence(str)`: the first offending sequence, or nothing. */
  function ForbiddenSequence(str: string): (r: Option<string>)
    ensures r.Some? ==> r.value in Messages
  {
    if StartsWith(str, "~") then Some("(starts with) ~")
    else if StartsWith(str, ".") then Some("(starts with) .")
    else if IndexOfSubFrom(str, "..", 0) != -1 then Some("..")
    else if IndexOfSubFrom(str, "/", 0) != -1 then Some("/")
    else if IndexOfSubFrom(str, "\\", 0) != -1 then Some("\\")
    else if IndexOfSubFrom(str, "*", 0) != -1 then Some("*")
    else None
  }

  /** What failing each test of `Checks` means, spelled out. */
  lemma ViolatesChecks(str: string)
    ensures Violates(str, Checks[0]) == StartsWith(str, "~")
    ensures Violates(str, Checks[1]) == StartsWith(str, ".")
    ensures Violates(str, Checks[2]) == (IndexOfSubFrom(str, "..", 0) != -1)
    ensures Violates(str, Checks[3]) == (IndexOfSubFrom(str, "/", 0) != -1)
    ensures Violates(str, Checks[4]) == (IndexOfSubFrom(str, "\\", 0) != -1)
    ensures Violates(str, Checks[5]) == (IndexOfSubFrom(str, "*", 0) != -1)
  {
    IndexOfSubFound(str, "..");
    IndexOfSubFound(str, "/");
    IndexOfSubFound(str, "\\");
    IndexOfSubFound(str, "*");
  }

  /** The chain reports the message of the first test the name fails, in the order of
      `Checks`: test `k` is reported exactly when the name fails it and passes every
      test before it. */
  lemma FirstViolationWins(str: string, k: nat)
    requires k < |Checks|
    ensures ForbiddenSequence(str) == Some(Message(Checks[k])) <==>
              Violates(str, Checks[k]) && forall j :: 0 <= j < k ==> !Violates(str, Checks[j])
  {
    ViolatesChecks(str);
    MessagesDiffer();
  }

  /** The message of each test, and no two tests report the same one. */
  lemma MessagesDiffer()
    ensures Message(Checks[0]) == "(starts with) ~" && Message(Checks[1]) == "(starts with) ."
    ensures Message(Checks[2]) == ".." && Message(Checks[3]) == "/"
    ensures Message(Checks[4]) == "\\" && Message(Checks[5]) == "*"
    ensures forall a, b :: 0 <= a < b < |Checks| ==> Message(Checks[a]) != Message(Checks[b])
  {
    var msgs := ["(starts with) ~", "(starts with) .", "..", "/", "\\", "*"];
    assert forall j :: 0 <= j < 6 ==> Message(Checks[j]) == msgs[j];
    assert forall a, b :: 0 <= a < b < 6 ==> msgs[a] != msgs[b] by {
      assert msgs[0][14] == '~' && msgs[1][14] == '.';
      assert msgs[4][0] == '\\';
    }
  }

  /** A name failing no test is accepted, and one failing some test is rejected. */
  lemma AcceptedIffPassesAll(str: string)
    ensures ForbiddenSequence(str).None? <==> forall k :: 0 <= k < |Checks| ==> !Violates(str, Checks[k])
  {
    ViolatesChecks(str);
  }

  /** Example, an instance of FirstViolationWins: `..` is tested before `/`, so a name
      holding both reports `..`. */
  lemma DotsBeforeSlash()
    ensures ForbiddenSequence("a../b") == Some("..")
  {
    var name := "a../b";
    assert OccursAt(name, "..", 1) && name[..1] == "a";
    IndexOfSubFound(name, "..");
  }

  /** Example, an instance of FirstViolationWins: a leading `~` is reported before the
      `/` and the `.` that follow it. */
  lemma TildeFirst()
    ensures ForbiddenSequence("~/.x") == Some("(starts with) ~")
  {
    assert "~/.x"[..1] == "~";
  }
}
