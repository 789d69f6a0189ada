/**
 The SSH command gate as the two copy goroutines run it.  One feeds the user's keystrokes through `Write`,
 the other the device's output through `noteOutput`; they share the fields below under a mutex.  Each
 function here is one stretch under that mutex, or one write to the device; `GateRuns` interleaves them.

 The command policy is a parameter.  Bytes are characters.
 */
module GateModel {
  import opened Text
  import opened PasswordMasker

  /** What the gate asks of the policy. */
  datatype Policy = Policy(allows: string -> bool, enables: string -> bool)

  datatype Config = Config(policy: Policy, enableSecret: string, portalPassword: string)
  {
    function Credential(): string {
      if enableSecret != "" then enableSecret else portalPassword
    }
  }

  /** The line a line end was judged on. */
  datatype Line = Line(ignored: bool, cmd: string)

  /** What reaches the device, with its origin. */
  datatype Upstream = Key(c: char) | LineEnd(c: char, line: Line) | Secret(forced: bool) | Interrupt

  /** The fields behind the mutex; `skipNextLF` belongs to the keystroke side alone. */
  datatype Gate = Gate(
    devLine: string,
    userTyped: string,
    ignoreLine: bool,
    skipNextLF: bool,
    expectEnablePass: bool,
    injectEnableOnEnter: bool,
    execPrivileged: bool,
    enableMaskLen: nat,
    enableInjected: bool)

  const FRESH := Gate("", "", false, false, false, false, false, 0, false)

  // ---------------------------------------------------------------- text

  const BACKSPACE := '\U{08}'
  const DELETE := '\U{7F}'
  const CTRL_C := '\U{03}'

  predicate Erases(c: char) {
    c == BACKSPACE || c == DELETE
  }

  function DropLast(s: string): string {
    if s == "" then s else s[..|s| - 1]
  }

  predicate EndsWith(s: string, c: char) {
    s != "" && s[|s| - 1] == c
  }

  predicate PromptMark(c: char) {
    c == '#' || c == '>' || c == '$'
  }

  /** What follows the last '#', '>' or '$'. */
  function AfterPrompt(line: string): string {
    if line == "" || PromptMark(line[|line| - 1]) then "" else AfterPrompt(line[..|line| - 1]) + [line[|line| - 1]]
  }

  // ---------------------------------------------------------------- device output

  function ResetEnableFlow(g: Gate): Gate {
    g.(expectEnablePass := false, injectEnableOnEnter := false, enableInjected := false, enableMaskLen := 0)
  }

  function Trimmed(line: string): string {
    TrimSpace(Lower(line))
  }

  /** A '#' or '>' prompt at the end of the mirrored line. */
  function NotePrompt(g: Gate): Gate {
    var trim := Trimmed(g.devLine);
    if EndsWith(trim, '#') then ResetEnableFlow(g.(execPrivileged := true))
    else if EndsWith(trim, '>') then
      var g1 := g.(execPrivileged := false);
      if g1.expectEnablePass then ResetEnableFlow(g1) else g1
    else g
  }

  /** The mirrored line after a byte that ends no line. */
  function Mirrored(line: string, b: char): string {
    if Erases(b) then DropLast(line)
    else if b == CTRL_C then ""
    else if Printable(b) then line + [b]
    else line
  }

  function NoteByte(g: Gate, b: char): Gate {
    if b == '\r' || b == '\n' then NotePrompt(g).(devLine := "") else g.(devLine := Mirrored(g.devLine, b))
  }

  function NoteBytes(g: Gate, p: string): Gate
    decreases |p|
  {
    if p == "" then g else NoteBytes(NoteByte(g, p[0]), p[1..])
  }

  predicate PasswordPrompt(line: string) {
    var trim := Trimmed(line);
    Contains(trim, "password:") || Contains(trim, "passphrase:") || Contains(trim, "secret:")
  }

  /** The chunk left a "[sudo]" password prompt for which there is a password to send. */
  predicate SudoPrompt(cfg: Config, line: string) {
    PasswordPrompt(line) && Contains(Trimmed(line), "[sudo]") && cfg.portalPassword != ""
  }

  /** What a password prompt changes, and whether to try an automatic injection. */
  function AskedForPassword(cfg: Config, g: Gate, asks: bool, sudo: bool): (Gate, bool) {
    if !asks then (g, false)
    else
      var g1 := g.(ignoreLine := true);
      var wanted := g1.expectEnablePass && !g1.execPrivileged && cfg.Credential() != "" && !g1.enableInjected;
      if sudo then (g1.(expectEnablePass := true, enableInjected := false, injectEnableOnEnter := true), true)
      else if wanted then (g1.(injectEnableOnEnter := true), true)
      else (g1, false)
  }

  /** The end of a chunk. */
  function NoteChunkEnd(cfg: Config, g: Gate): (Gate, bool) {
    var g1 := NotePrompt(g);
    AskedForPassword(cfg, g1, PasswordPrompt(g1.devLine), SudoPrompt(cfg, g1.devLine))
  }

  function NoteOutput(cfg: Config, g: Gate, p: string): (Gate, bool) {
    NoteChunkEnd(cfg, NoteBytes(g, p))
  }

  // ---------------------------------------------------------------- injection

  /** Whether a secret may be sent now; `recent` says an unforced one went out within the last 800 ms. */
  predicate MayInject(cfg: Config, g: Gate, force: bool, recent: bool) {
    !g.execPrivileged && cfg.Credential() != "" && (force || (!g.enableInjected && !recent))
  }

  function Injected(cfg: Config, g: Gate): Gate {
    g.(enableInjected := true, enableMaskLen := |cfg.Credential()|, ignoreLine := true)
  }

  // ---------------------------------------------------------------- keystrokes

  predicate WaitingForPassword(cfg: Config, g: Gate) {
    cfg.Credential() != "" && !g.execPrivileged && g.expectEnablePass
  }

  predicate HoldsSecret(cfg: Config, p: string) {
    cfg.Credential() != "" && Contains(p, cfg.Credential())
  }

  /** The mirrored line after its prompt, or what was typed when nothing has been echoed. */
  function CurrentCommand(g: Gate): string {
    var cmd := TrimSpace(AfterPrompt(g.devLine));
    if cmd == "" then TrimSpace(g.userTyped) else cmd
  }

  function ResetLineMirror(g: Gate): Gate {
    g.(devLine := "", userTyped := "", ignoreLine := false, injectEnableOnEnter := false)
  }

  /** What becomes of a line end. */
  datatype Verdict = Swallow | Forward | Deny | Enable

  function VerdictOn(cfg: Config, inject: bool, line: Line): Verdict {
    if inject && cfg.Credential() != "" then Swallow
    else if line.ignored || line.cmd == "" then Forward
    else if !cfg.policy.allows(line.cmd) then Deny
    else if cfg.policy.enables(line.cmd) && cfg.Credential() != "" then Enable
    else Forward
  }

  /** The stretch under the mutex at the head of handleLineEnd, and the decision it leads to. */
  function JudgeLine(cfg: Config, g: Gate): (Gate, Line, Verdict) {
    var line := Line(g.ignoreLine, CurrentCommand(g));
    (g.(ignoreLine := false, userTyped := ""), line, VerdictOn(cfg, g.injectEnableOnEnter, line))
  }

  /** An accepted enable line opens the password flow and forgets the mirrored prompt. */
  function OpenEnable(g: Gate): Gate {
    g.(expectEnablePass := true, enableInjected := false, devLine := "")
  }

  function Typed(g: Gate, c: char): Gate {
    if Erases(c) then g.(userTyped := DropLast(g.userTyped))
    else if Printable(c) then g.(userTyped := g.userTyped + [c])
    else g
  }
}
