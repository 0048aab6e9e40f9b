/** The system-call gate: buffer validation, and the calls that put the caller to sleep. */
module Syscalls {
  import opened Wrappers
  import opened Paging
  import opened Tasks
  import opened TaskManagement

  const MAX_PRINT_LEN: nat := 1024
  const ERR_INVALID_POINTER: nat := 1
  const ERR_INVALID_LENGTH: nat := 2
  const ERR_INVALID_UTF8: nat := 3
  const ERR_INVALID_CONTEXT: nat := 4
  const ERR_NOT_IMPLEMENTED: nat := 0xFFFF_FFFF

  datatype Validation = Accepted | Rejected(code: nat)

  function ValidateUserBuffer(ptr: U32, len: U32): Validation {
    if len == 0 || len > MAX_PRINT_LEN then Rejected(ERR_INVALID_LENGTH)
    else if !UserRangeContains(ptr, len) then Rejected(ERR_INVALID_POINTER)
    else Accepted
  }

  /** A buffer is accepted exactly when its length is allowed and user code may access every byte of it;
      a bad length is reported before a bad pointer. */
  lemma AcceptedBuffersAreUserMemory(dir: seq<nat>, tables: map<nat, seq<nat>>, ptr: U32, len: U32)
    requires Booted(dir, tables)
    ensures |dir| == ENTRIES && forall b :: b in tables ==> |tables[b]| == ENTRIES
    ensures ValidateUserBuffer(ptr, len).Accepted? <==>
            1 <= len <= 1024 && forall a :: ptr <= a < ptr + len ==> UserAccessible(dir, tables, a)
    ensures ValidateUserBuffer(ptr, len) == Rejected(2) <==> !(1 <= len <= 1024)
    ensures ValidateUserBuffer(ptr, len) in {Accepted, Rejected(1), Rejected(2)}
  {
    RangeTestIsExact(dir, tables, ptr, len);
  }

  /** The dispatcher; `utf8` stands for the verdict of the UTF-8 check on the buffer's bytes. */
  method SyscallDispatcher(manager: TaskManager, number: U32, arg1: U32, arg2: U32, utf8: bool, esp: nat)
    returns (code: nat)
    modifies manager
    ensures manager.View() ==
            if number == 2 then Sleep(old(manager.View()), esp, 1)
            else if number == 3 then Sleep(old(manager.View()), esp, arg1)
            else old(manager.View())
    ensures number == 2 || number == 3 ==>
              code == if SleepAccepted(old(manager.View())) then 0 else 4
    ensures number == 1 ==>
              match ValidateUserBuffer(arg1, arg2)
              case Rejected(c) => code == c
              case Accepted => code == if utf8 then 0 else 3
    ensures number !in {1, 2, 3} ==> code == 0xFFFF_FFFF
  {
    match number
    case 1 =>
      var v := ValidateUserBuffer(arg1, arg2);
      code := if v.Rejected? then v.code else if utf8 then 0 else ERR_INVALID_UTF8;
    case 2 =>
      var slept := manager.SleepCurrentTask(esp, 1);
      code := if slept then 0 else ERR_INVALID_CONTEXT;
    case 3 =>
      var slept := manager.SleepCurrentTask(esp, arg1);
      code := if slept then 0 else ERR_INVALID_CONTEXT;
    case _ =>
      code := ERR_NOT_IMPLEMENTED;
  }
}
