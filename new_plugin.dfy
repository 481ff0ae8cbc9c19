// commands/new_plugin.py: registering a new plugin's source file in the
// plugin library's CMakeLists.txt. The file's lines are scanned once with a
// small state machine; the plugin's path goes on its own indented line,
// after an empty one, right after the first line naming `s2eplugins` at or
// after the line that opens `add_library(`. A file that already mentions the
// path is given back untouched.
module NewPlugin {
  import opened PyStr

  const AddLibrary := "add_library("
  const PluginsTarget := "s2eplugins"

  /** The line the path is written on. */
  function PathLine(plugin: string): string
  {
    "    " + plugin
  }

  /** The lines as the loop sees them: with trailing whitespace removed. */
  function Stripped(lines: seq<string>): (r: seq<string>)
    ensures |r| == |lines|
    ensures forall i :: 0 <= i < |lines| ==> r[i] == RStrip(lines[i])
  {
    seq(|lines|, i requires 0 <= i < |lines| => RStrip(lines[i]))
  }

  /** Some line, right-stripped, already mentions the plugin's path. */
  predicate AlreadySet(lines: seq<string>, plugin: string)
  {
    exists i :: 0 <= i < |lines| && Contains(RStrip(lines[i]), plugin)
  }

  /**
   * The state after one line: 0 before `add_library(`, 1 inside it, 2 on
   * the line that names the plugin library (the same line may do both), and
   * 3 once the path has been inserted.
   */
  function Step(state: nat, line: string): nat
  {
    var inside := if state == 0 && Contains(line, AddLibrary) then 1 else state;
    if inside == 1 && Contains(line, PluginsTarget) then 2 else inside
  }

  /** The output lines the loop produces for the remaining input, starting in `state`. */
  function Rewrite(lines: seq<string>, plugin: string, state: nat): seq<string>
    decreases |lines|
  {
    if lines == [] then []
    else
      var line := RStrip(lines[0]);
      var next := Step(state, line);
      if next == 2 then [line, "", PathLine(plugin)] + Rewrite(lines[1..], plugin, 3)
      else [line] + Rewrite(lines[1..], plugin, next)
  }

  /**
   * `_inject_plugin_path` on the lines `readlines` gave: the original text
   * when the path is already there, otherwise the rewritten lines joined by
   * newlines, with a final newline.
   */
  method InjectPluginPath(lines: seq<string>, plugin: string) returns (text: string)
    ensures AlreadySet(lines, plugin) ==> text == Join("", lines)
    ensures !AlreadySet(lines, plugin) ==> text == Join("\n", Rewrite(lines, plugin, 0)) + "\n"
  {
    var out: seq<string> := [];
    var state: nat := 0;
    var i := 0;
    while i < |lines|
      invariant 0 <= i <= |lines|
      invariant forall j :: 0 <= j < i ==> !Contains(RStrip(lines[j]), plugin)
      invariant out + Rewrite(lines[i..], plugin, state) == Rewrite(lines, plugin, 0)
    {
      var line := RStrip(lines[i]);
      if Contains(line, plugin) {
        return Join("", lines);
      }
      ghost var out0, state0 := out, state;
      if state == 0 {
        if Contains(line, AddLibrary) {
          state := 1;
        }
      }
      if state == 1 && Contains(line, PluginsTarget) {
        state := 2;
      }
      out := out + [line];
      if state == 2 {
        out := out + ["", PathLine(plugin)];
        state := 3;
      }
      Advance(lines, i, plugin, out0, state0, out, state);
      i := i + 1;
    }
    assert lines[i..] == [];
    assert out == out + Rewrite(lines[i..], plugin, state);
    text := Join("\n", out) + "\n";
  }

  /** One turn of the loop keeps the output so far and the output still to come in step. */
  lemma Advance(lines: seq<string>, i: nat, plugin: string, out: seq<string>, state: nat,
                out': seq<string>, state': nat)
    requires i < |lines|
    requires out + Rewrite(lines[i..], plugin, state) == Rewrite(lines, plugin, 0)
    requires Step(state, RStrip(lines[i])) == 2 ==>
      out' == out + [RStrip(lines[i])] + ["", PathLine(plugin)] && state' == 3
    requires Step(state, RStrip(lines[i])) != 2 ==>
      out' == out + [RStrip(lines[i])] && state' == Step(state, RStrip(lines[i]))
    ensures out' + Rewrite(lines[i + 1..], plugin, state') == Rewrite(lines, plugin, 0)
  {
    assert lines[i..][1..] == lines[i + 1..];
  }

  // ---------------------------------------------------------------------
  // Where the path goes, stated without the state machine

  /**
   * Line `k` names the plugin library and comes at or after a line opening
   * `add_library(` (or the scan is already inside it, `open`).
   */
  predicate Anchored(s: seq<string>, k: int, open: bool)
  {
    0 <= k < |s| && Contains(s[k], PluginsTarget)
    && (open || exists a :: 0 <= a <= k && Contains(s[a], AddLibrary))
  }

  predicate FirstAnchored(s: seq<string>, k: int, open: bool)
  {
    Anchored(s, k, open) && forall j :: 0 <= j < k ==> !Anchored(s, j, open)
  }

  /** The lines with the empty line and the path after line `k`. */
  function Inserted(s: seq<string>, k: nat, plugin: string): (r: seq<string>)
    requires k < |s|
    ensures |r| == |s| + 2
  {
    s[..k + 1] + ["", PathLine(plugin)] + s[k + 1..]
  }

  /** After the insertion every further line is only right-stripped. */
  lemma {:induction false} RewriteDone(lines: seq<string>, plugin: string)
    ensures Rewrite(lines, plugin, 3) == Stripped(lines)
    decreases |lines|
  {
    if lines != [] {
      RewriteDone(lines[1..], plugin);
      assert Stripped(lines) == [RStrip(lines[0])] + Stripped(lines[1..]);
    }
  }

  /** Dropping the first line shifts every anchor down by one. */
  lemma AnchoredShift(s: seq<string>, open: bool, open': bool, k: int)
    requires |s| > 0 && 1 <= k < |s|
    requires open' == (open || Contains(s[0], AddLibrary))
    ensures Anchored(s, k, open) <==> Anchored(s[1..], k - 1, open')
  {
    var t := s[1..];
    if Anchored(s, k, open) && !open' {
      var a :| 0 <= a <= k && Contains(s[a], AddLibrary);
      assert a != 0;
      assert t[a - 1] == s[a];
    }
    if Anchored(t, k - 1, open') && !open {
      if !Contains(s[0], AddLibrary) {
        var a :| 0 <= a <= k - 1 && Contains(t[a], AddLibrary);
        assert s[a + 1] == t[a];
      }
    }
  }

  lemma StrippedTail(lines: seq<string>)
    requires |lines| > 0
    ensures Stripped(lines) == [RStrip(lines[0])] + Stripped(lines[1..])
  {
  }

  lemma InsertedCons(s: seq<string>, k: nat, plugin: string)
    requires 1 <= k < |s|
    ensures Inserted(s, k, plugin) == [s[0]] + Inserted(s[1..], k - 1, plugin)
  {
    assert s[..k + 1] == [s[0]] + s[1..][..k];
    assert s[k + 1..] == s[1..][k..];
  }

  /** The state machine, started in state 0 (`open` false) or 1 (`open` true). */
  lemma {:induction false} RewriteFrom(lines: seq<string>, plugin: string, open: bool)
    ensures var s := Stripped(lines);
      (forall k :: !Anchored(s, k, open)) ==> Rewrite(lines, plugin, if open then 1 else 0) == s
    ensures var s := Stripped(lines);
      forall k :: FirstAnchored(s, k, open) ==> Rewrite(lines, plugin, if open then 1 else 0) == Inserted(s, k, plugin)
    decreases |lines|
  {
    if lines != [] {
      var s := Stripped(lines);
      var state: nat := if open then 1 else 0;
      var line := RStrip(lines[0]);
      var next := Step(state, line);
      StrippedTail(lines);
      assert s[0] == line;
      if next == 2 {
        assert Anchored(s, 0, open);
        RewriteDone(lines[1..], plugin);
        assert Rewrite(lines, plugin, state) == Inserted(s, 0, plugin);
      } else {
        var open' := open || Contains(line, AddLibrary);
        assert next == if open' then 1 else 0;
        assert !Anchored(s, 0, open);
        var t := Stripped(lines[1..]);
        assert t == s[1..];
        RewriteFrom(lines[1..], plugin, open');
        assert Rewrite(lines, plugin, state) == [line] + Rewrite(lines[1..], plugin, next);
        if forall k :: !Anchored(s, k, open) {
          ShiftNone(s, open, open');
        }
        forall k | FirstAnchored(s, k, open)
          ensures Rewrite(lines, plugin, state) == Inserted(s, k, plugin)
        {
          ShiftFirst(s, open, open', k);
          InsertedCons(s, k, plugin);
        }
      }
    }
  }

  lemma ShiftNone(s: seq<string>, open: bool, open': bool)
    requires |s| > 0 && open' == (open || Contains(s[0], AddLibrary))
    requires forall k :: !Anchored(s, k, open)
    ensures forall k :: !Anchored(s[1..], k, open')
  {
    forall k | 0 <= k < |s| - 1 ensures !Anchored(s[1..], k, open') {
      AnchoredShift(s, open, open', k + 1);
    }
  }

  lemma ShiftFirst(s: seq<string>, open: bool, open': bool, k: int)
    requires |s| > 0 && open' == (open || Contains(s[0], AddLibrary))
    requires !Anchored(s, 0, open) && FirstAnchored(s, k, open)
    ensures 1 <= k && FirstAnchored(s[1..], k - 1, open')
  {
    AnchoredShift(s, open, open', k);
    forall j | 0 <= j < k - 1 ensures !Anchored(s[1..], j, open') {
      AnchoredShift(s, open, open', j + 1);
    }
  }

  /**
   * The rewritten lines: all input lines right-stripped, in order, with an
   * empty line and the path inserted after the first line that names the
   * plugin library at or after the line opening `add_library(`, and nothing
   * inserted when there is no such line.
   */
  lemma RewriteSpec(lines: seq<string>, plugin: string)
    ensures (forall k :: !Anchored(Stripped(lines), k, false)) ==> Rewrite(lines, plugin, 0) == Stripped(lines)
    ensures forall k :: FirstAnchored(Stripped(lines), k, false) ==>
      Rewrite(lines, plugin, 0) == Inserted(Stripped(lines), k, plugin)
  {
    RewriteFrom(lines, plugin, false);
  }

  lemma ContainsEmpty(s: string)
    ensures Contains(s, "")
  {
    assert OccursAt(s, "", 0);
  }

  lemma ContainsPathLine(plugin: string)
    ensures Contains(PathLine(plugin), plugin)
  {
    assert PathLine(plugin)[4..4 + |plugin|] == plugin;
    assert OccursAt(PathLine(plugin), plugin, 4);
  }

  /**
   * The path is inserted once: when it was not already set and an anchor
   * exists, exactly one output line mentions it, the one two past the anchor.
   */
  lemma InsertedOnce(lines: seq<string>, plugin: string, k: nat)
    requires !AlreadySet(lines, plugin)
    requires FirstAnchored(Stripped(lines), k, false)
    ensures var out := Rewrite(lines, plugin, 0);
      forall j :: 0 <= j < |out| ==> (Contains(out[j], plugin) <==> j == k + 2)
  {
    var s := Stripped(lines);
    RewriteSpec(lines, plugin);
    var out := Rewrite(lines, plugin, 0);
    assert out == Inserted(s, k, plugin);
    ContainsPathLine(plugin);
    ContainsEmpty(s[0]);
    assert plugin != "";
    forall j | 0 <= j < |out| && j != k + 2
      ensures !Contains(out[j], plugin)
    {
      if j == k + 1 {
        assert out[j] == "";
        assert plugin != "";
      } else if j <= k {
        assert out[j] == s[j];
        assert !Contains(RStrip(lines[j]), plugin);
      } else {
        assert out[j] == s[j - 2];
        assert !Contains(RStrip(lines[j - 2]), plugin);
      }
    }
  }
}
