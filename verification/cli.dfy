/**
  The command lines of the sample programs, after `getopt_long` has split
  them.  Every sample walks the options in the order the user wrote them and
  switches on the option letter; an option missing from the program's own
  `longOptions` table comes back as `'?'` and takes the `default:` branch.
  Option values are what `atoi` made of the argument text.
 */
module Cli {
  import opened Outcomes

  /** A C `int32_t`. */
  type int32 = x: int | -0x8000_0000 <= x < 0x8000_0000

  /** A C `uint32_t`. */
  type uint32 = x: int | 0 <= x < 0x1_0000_0000

  /** Storing an `int` into a `uint32_t` keeps it modulo 2^32. */
  function ToUint32(x: int32): uint32
  {
    if x >= 0 then x else x + 0x1_0000_0000
  }

  /** One option the user wrote, identified by the long option it selects. */
  datatype CliOption =
    | Usage                  // --u
    | Input(path: string)    // --i <path>
    | Output(path: string)   // --o <path>
    | Width(value: int32)    // --w <n>
    | Height(value: int32)   // --h <n>
    | Type(value: int32)     // --t <n>
    | Bitrate(value: int32)  // --b <n>
    | Framerate(value: int32) // --f <n>
    | Unknown                // anything getopt_long reports as '?'

  /** The long-option names, as the entries of a `longOptions` table. */
  datatype Key = KUsage | KInput | KOutput | KWidth | KHeight | KType | KBitrate | KFramerate

  function KeyOf(o: CliOption): Option<Key>
  {
    match o
    case Usage => Some(KUsage)
    case Input(_) => Some(KInput)
    case Output(_) => Some(KOutput)
    case Width(_) => Some(KWidth)
    case Height(_) => Some(KHeight)
    case Type(_) => Some(KType)
    case Bitrate(_) => Some(KBitrate)
    case Framerate(_) => Some(KFramerate)
    case Unknown => None
  }

  /** An option the switch handles without returning an error: it is in the
      program's table and it is not `--u`, which every sample answers with
      its error code. */
  predicate Accepts(table: set<Key>, o: CliOption)
  {
    KeyOf(o).Some? && KeyOf(o).value in table && KeyOf(o).value != KUsage
  }

  predicate AllAccepted(table: set<Key>, opts: seq<CliOption>)
  {
    forall i | 0 <= i < |opts| :: Accepts(table, opts[i])
  }

  /** The last option of kind `k`, i.e. the one whose value a field keeps
      when the switch overwrites it once per occurrence. */
  function Last(opts: seq<CliOption>, k: Key): Option<CliOption>
  {
    if opts == [] then None
    else if KeyOf(opts[|opts| - 1]) == Some(k) then Some(opts[|opts| - 1])
    else Last(opts[..|opts| - 1], k)
  }

  /** `Last` finds nothing exactly when no option of kind `k` was given. */
  lemma {:induction false} LastNoneIffAbsent(opts: seq<CliOption>, k: Key)
    ensures Last(opts, k).None? <==> forall i | 0 <= i < |opts| :: KeyOf(opts[i]) != Some(k)
  {
    if opts != [] {
      var n := |opts| - 1;
      LastNoneIffAbsent(opts[..n], k);
      assert forall i | 0 <= i < n :: opts[..n][i] == opts[i];
    }
  }

  /** What `Last` finds is an option of kind `k` that no later one overrides. */
  lemma {:induction false} LastIsLatest(opts: seq<CliOption>, k: Key)
    requires Last(opts, k).Some?
    ensures exists i | 0 <= i < |opts| ::
              opts[i] == Last(opts, k).value && KeyOf(opts[i]) == Some(k) &&
              forall j | i < j < |opts| :: KeyOf(opts[j]) != Some(k)
  {
    var n := |opts| - 1;
    if KeyOf(opts[n]) == Some(k) {
      assert opts[n] == Last(opts, k).value;
    } else {
      var front := opts[..n];
      LastIsLatest(front, k);
      var i :| 0 <= i < n && front[i] == Last(front, k).value && KeyOf(front[i]) == Some(k) &&
               forall j | i < j < n :: KeyOf(front[j]) != Some(k);
      assert forall j | i < j < n :: front[j] == opts[j];
      assert opts[i] == Last(opts, k).value;
    }
  }

  /** Extending the walked prefix by one option updates `Last` the way one
      more round of the switch updates the field. */
  lemma LastStep(opts: seq<CliOption>, i: nat, k: Key)
    requires i < |opts|
    ensures Last(opts[..i + 1], k) ==
            if KeyOf(opts[i]) == Some(k) then Some(opts[i]) else Last(opts[..i], k)
  {
    assert opts[..i + 1][..i] == opts[..i];
  }

  /** The integer an `--w`, `--h`, `--t`, `--b` or `--f` option carries. */
  function IntValue(o: CliOption, otherwise: int32): int32
  {
    match o
    case Width(v) => v
    case Height(v) => v
    case Type(v) => v
    case Bitrate(v) => v
    case Framerate(v) => v
    case _ => otherwise
  }

  /** The path an `--i` or `--o` option carries. */
  function PathValue(o: CliOption, otherwise: string): string
  {
    match o
    case Input(p) => p
    case Output(p) => p
    case _ => otherwise
  }

  /** The integer the last option of kind `k` stored, or the field's initial
      value when the option was not given. */
  function LastValue(opts: seq<CliOption>, k: Key, initial: int32): int32
  {
    match Last(opts, k)
    case Some(o) => IntValue(o, initial)
    case None => initial
  }

  /** The path the last option of kind `k` stored, or `initial` without one. */
  function LastPath(opts: seq<CliOption>, k: Key, initial: string): string
  {
    match Last(opts, k)
    case Some(o) => PathValue(o, initial)
    case None => initial
  }

  lemma AllAcceptedStep(table: set<Key>, opts: seq<CliOption>, i: nat)
    requires i < |opts|
    requires AllAccepted(table, opts[..i])
    requires Accepts(table, opts[i])
    ensures AllAccepted(table, opts[..i + 1])
  {
    assert opts[..i + 1] == opts[..i] + [opts[i]];
  }
}
