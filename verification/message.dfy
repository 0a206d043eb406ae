/** The booking message: send_booking (src/daemon/daemon_socket.c) stores the directory of the run and
    the path of its log in one buffer, handle_message (src/daemon/daemon.c) takes them apart. */
module BookingMessage {
  import opened Nodes

  /** Size of the log_path field. */
  const MAX_LOG_PATH := 4098

  ghost predicate NoNul(s: string) {
    forall i :: 0 <= i < |s| ==> s[i] != '\0'
  }

  /** The string that starts at position i of a buffer, None if it does not end in the buffer. */
  function CString(buffer: string, i: nat): Option<string>
    decreases |buffer| - i
  {
    if i >= |buffer| then None
    else if buffer[i] == '\0' then Some("")
    else
      match CString(buffer, i + 1)
      case None => None
      case Some(rest) => Some([buffer[i]] + rest)
  }

  /** A string and its closing character have been stored at position i. */
  ghost predicate StoredAt(buffer: string, i: nat, s: string) {
    && i + |s| < |buffer|
    && (forall j :: 0 <= j < |s| ==> buffer[i + j] == s[j])
    && buffer[i + |s|] == '\0'
  }

  lemma {:induction false} CStringIs(buffer: string, i: nat, s: string)
    requires NoNul(s) && StoredAt(buffer, i, s)
    ensures CString(buffer, i) == Some(s)
    decreases |s|
  {
    if s != "" {
      assert s[0] == buffer[i + 0];
      forall j | 0 <= j < |s| - 1 ensures buffer[i + 1 + j] == s[1..][j] {
        assert buffer[i + (j + 1)] == s[j + 1];
      }
      CStringIs(buffer, i + 1, s[1..]);
      assert s == [s[0]] + s[1..];
    }
  }

  lemma {:induction false} NoEnd(buffer: string, i: nat)
    requires forall j :: i <= j < |buffer| ==> buffer[j] != '\0'
    ensures CString(buffer, i) == None
    decreases |buffer| - i
  {
    if i < |buffer| {
      NoEnd(buffer, i + 1);
    }
  }

  /** What getcwd leaves in the zeroed buffer: nothing if the directory does not fit. */
  function Known(cwd: string): string {
    if |cwd| < MAX_LOG_PATH then cwd else ""
  }

  /** First position behind everything send_booking stores. */
  function Top(cwd: string, logPath: string): nat {
    |Known(cwd)| + 1 + |logPath| + 1
  }

  /** strcpy: everything is stored, however much room there is meant to be. */
  method CopyString(memory: array<char>, at: nat, s: string)
    requires at + |s| < memory.Length
    modifies memory
    ensures StoredAt(memory[..], at, s)
    ensures forall j :: 0 <= j < memory.Length && !(at <= j <= at + |s|) ==> memory[j] == old(memory[j])
  {
    for i := 0 to |s|
      invariant forall j :: 0 <= j < i ==> memory[at + j] == s[j]
      invariant forall j :: 0 <= j < memory.Length && !(at <= j < at + i) ==> memory[j] == old(memory[j])
    {
      memory[at + i] := s[i];
    }
    memory[at + |s|] := '\0';
  }

  /** strlen from position i on, None if it runs over the end. */
  method StringLength(memory: array<char>, i: nat) returns (n: Option<nat>)
    requires i <= memory.Length
    ensures n.Some? <==> CString(memory[..], i).Some?
    ensures n.Some? ==> n.value == |CString(memory[..], i).value|
    ensures n.Some? ==> i + n.value < memory.Length && memory[i..i + n.value] == CString(memory[..], i).value
  {
    var k := 0;
    while i + k < memory.Length && memory[i + k] != '\0'
      invariant i + k <= memory.Length
      invariant forall j :: i <= j < i + k ==> memory[j] != '\0'
    {
      k := k + 1;
    }
    if i + k == memory.Length {
      NoEnd(memory[..], i);
      return None;
    }
    CStringIs(memory[..], i, memory[i..i + k]);
    return Some(k);
  }

  /** getcwd, its result not looked at. */
  method GetCwd(memory: array<char>, cwd: string)
    requires memory.Length >= MAX_LOG_PATH && forall j :: 0 <= j < MAX_LOG_PATH ==> memory[j] == '\0'
    modifies memory
    ensures StoredAt(memory[..], 0, Known(cwd))
    ensures forall j :: |Known(cwd)| < j < memory.Length ==> memory[j] == old(memory[j])
  {
    if |cwd| < MAX_LOG_PATH {
      CopyString(memory, 0, cwd);
    }
  }

  /** send_booking. `memory` starts with the zeroed log_path field; what lies behind it is not part of
      the field. Both strings are stored one behind the other, wherever the field ends. */
  method PackPaths(memory: array<char>, cwd: string, logPath: string)
    requires NoNul(cwd) && NoNul(logPath) && memory.Length > MAX_LOG_PATH + |logPath|
    requires forall j :: 0 <= j < MAX_LOG_PATH ==> memory[j] == '\0'
    modifies memory
    ensures Packed(memory[..], old(memory[..]), cwd, logPath)
  {
    GetCwd(memory, cwd);
    CStringIs(memory[..], 0, Known(cwd));
    var end := StringLength(memory, 0);
    label known:
    CopyString(memory, end.value + 1, logPath);
    assert forall j :: 0 <= j <= |Known(cwd)| ==> memory[j] == old@known(memory[j]);
  }

  /** What send_booking makes of the memory. */
  ghost predicate Packed(memory: string, before: string, cwd: string, logPath: string) {
    && |memory| == |before| && Top(cwd, logPath) <= |memory|
    && StoredAt(memory, 0, Known(cwd)) && StoredAt(memory, |Known(cwd)| + 1, logPath)
    && forall j :: Top(cwd, logPath) <= j < |memory| ==> memory[j] == before[j]
  }

  /** handle_message: the strings in the field and what was received behind it; None where strlen runs
      on behind that. */
  method UnpackPaths(field: array<char>) returns (toolWd: Option<string>, logPath: Option<string>)
    requires field.Length >= MAX_LOG_PATH
    ensures toolWd == CString(field[..], 0)
    ensures logPath == if toolWd.Some? then CString(field[..], |toolWd.value| + 1) else None
  {
    toolWd, logPath := None, None;
    var end := StringLength(field, 0);
    if end.Some? {
      toolWd := Some(field[..end.value]);
      var n := StringLength(field, end.value + 1);
      if n.Some? {
        logPath := Some(field[end.value + 1..end.value + 1 + n.value]);
      }
    }
  }

  // ---- when the message carries both strings

  /** The field overflows. */
  predicate Overflows(cwd: string, logPath: string) {
    |Known(cwd)| + |logPath| + 2 > MAX_LOG_PATH
  }

  /** What is behind the field survives, whatever it is, exactly if the field does not overflow. */
  lemma OverflowExactly(cwd: string, logPath: string)
    ensures Overflows(cwd, logPath) <==>
      exists memory: string, before: string :: Packed(memory, before, cwd, logPath) && Damaged(memory, before)
  {
    if Overflows(cwd, logPath) {
      var before := seq(Top(cwd, logPath), _ => '!');
      var known := Known(cwd) + ['\0'];
      var memory := known + logPath + ['\0'];
      assert memory[Top(cwd, logPath) - 1] == '\0';
      assert Packed(memory, before, cwd, logPath) && Damaged(memory, before);
    }
  }

  /** A character behind the field has changed. */
  ghost predicate Damaged(memory: string, before: string) {
    exists j :: MAX_LOG_PATH <= j < |memory| && j < |before| && memory[j] != before[j]
  }

  /** What the daemon finds in the first `room` characters behind the start of the field: the directory
      if getcwd could store it, otherwise the empty one, and the path if it ends there. It finds what
      was meant exactly if the directory could be stored and both strings end there. The field alone
      has room for 4098 characters; padding sent behind it counts as more. */
  lemma DeliveredExactly(memory: string, before: string, cwd: string, logPath: string, room: nat)
    requires NoNul(cwd) && NoNul(logPath) && Packed(memory, before, cwd, logPath)
    requires MAX_LOG_PATH <= room <= |memory|
    ensures CString(memory[..room], 0) == Some(Known(cwd))
    ensures CString(memory[..room], |Known(cwd)| + 1) == if Top(cwd, logPath) <= room then Some(logPath) else None
    ensures CString(memory[..room], 0) == Some(cwd) && CString(memory[..room], |cwd| + 1) == Some(logPath)
       <==> |cwd| < MAX_LOG_PATH && |cwd| + |logPath| + 2 <= room
  {
    hide CString, StoredAt;
    SeenString(memory, 0, Known(cwd), room);
    SeenString(memory, |Known(cwd)| + 1, logPath, room);
  }

  /** Of a stored string the first `room` characters show all or no end. */
  lemma SeenString(memory: string, i: nat, s: string, room: nat)
    requires NoNul(s) && StoredAt(memory, i, s) && i <= room <= |memory|
    ensures CString(memory[..room], i) == if i + |s| < room then Some(s) else None
  {
    hide CString;
    var seen := memory[..room];
    if i + |s| < room {
      CStringIs(seen, i, s);
    } else {
      forall j | i <= j < |seen| ensures seen[j] != '\0' {
        assert memory[i + (j - i)] == s[j - i];
      }
      NoEnd(seen, i);
    }
  }

  /** Any directory and any path of 2100 characters each, both within the system's limit for paths: 104
      characters are stored behind the field, and the path has no end in it. */
  lemma TwoLongPaths(memory: string, before: string, cwd: string, logPath: string)
    requires NoNul(cwd) && NoNul(logPath) && |cwd| == 2100 && |logPath| == 2100
    requires Packed(memory, before, cwd, logPath)
    ensures Overflows(cwd, logPath) && Top(cwd, logPath) == MAX_LOG_PATH + 104
    ensures memory[MAX_LOG_PATH..MAX_LOG_PATH + 104] == logPath[2100 - 103..] + ['\0']
    ensures CString(memory[..MAX_LOG_PATH], 2101) == None
  {
    DeliveredExactly(memory, before, cwd, logPath, MAX_LOG_PATH);
    var behind, expected := memory[MAX_LOG_PATH..MAX_LOG_PATH + 104], logPath[2100 - 103..] + ['\0'];
    forall j | 0 <= j < 104 ensures behind[j] == expected[j] {
      if j < 103 {
        assert memory[2101 + (2100 - 103 + j)] == logPath[2100 - 103 + j];
      }
    }
  }

  /** Any directory that does not fit: the daemon finds the empty directory instead. */
  lemma DeepDirectory(memory: string, before: string, cwd: string, logPath: string)
    requires NoNul(cwd) && NoNul(logPath) && |cwd| >= MAX_LOG_PATH && |logPath| + 2 <= MAX_LOG_PATH
    requires |memory| >= MAX_LOG_PATH && Packed(memory, before, cwd, logPath)
    ensures CString(memory[..MAX_LOG_PATH], 0) == Some("") && CString(memory[..MAX_LOG_PATH], 1) == Some(logPath)
  {
    DeliveredExactly(memory, before, cwd, logPath, MAX_LOG_PATH);
  }
}
