/** The two pieces of state the bot changes in place: the `user_processes`
    table of chats with a job in flight, and the files under `input/` and
    `output/`. */
module State {

  /** `user_processes`: the chats that have a video being processed. The
      table only ever maps to `True`, so its keys are all it holds. */
  class RequesterGate {
    var active: set<int>

    constructor()
      ensures active == {}
    {
      active := {};
    }

    /** `chat_id in user_processes` */
    predicate Busy(chatId: int)
      reads this
    {
      chatId in active
    }

    /** `user_processes[chat_id] = True` */
    method Admit(chatId: int)
      modifies this
      ensures active == old(active) + {chatId}
    {
      active := active + {chatId};
    }

    /** The admission check and the insert together, with nothing awaited
        between them: a chat already in the table is refused and nothing
        changes; any other chat is entered. */
    method TryAdmit(chatId: int) returns (admitted: bool)
      modifies this
      ensures admitted <==> chatId !in old(active)
      ensures active == old(active) + {chatId}
    {
      admitted := !Busy(chatId);
      if admitted {
        Admit(chatId);
      }
    }

    /** `if chat_id in user_processes: del user_processes[chat_id]` */
    method Release(chatId: int)
      modifies this
      ensures active == old(active) - {chatId}
    {
      if Busy(chatId) {
        active := active - {chatId};
      }
    }

    /** `del user_processes[chat_id]` with no check: `raised` stands for the
        KeyError when the chat is absent, in which case nothing changes. */
    method Remove(chatId: int) returns (raised: bool)
      modifies this
      ensures raised <==> chatId !in old(active)
      ensures active == old(active) - {chatId}
    {
      raised := !Busy(chatId);
      if !raised {
        active := active - {chatId};
      }
    }
  }

  /** The gate's promise seen from one chat: it is let in, a second request
      is refused while the first is running, and once released it is let in
      again; other chats keep their places throughout. */
  method GateScenario(others: set<int>, chatId: int) returns (first: bool, second: bool, third: bool, after: set<int>)
    requires chatId !in others
    ensures first && !second && third
    ensures after == others + {chatId}
  {
    var gate := new RequesterGate();
    gate.active := others;
    first := gate.TryAdmit(chatId);
    second := gate.TryAdmit(chatId);
    gate.Release(chatId);
    assert gate.active == others;
    third := gate.TryAdmit(chatId);
    after := gate.active;
  }

  /** The files the bot has on disk, by path. */
  class Disk {
    var files: set<string>

    constructor(initial: set<string>)
      ensures files == initial
    {
      files := initial;
    }

    /** `os.path.exists(path)` */
    predicate Exists(path: string)
      reads this
    {
      path in files
    }

    /** A tool or `open(..., 'w')` creates or overwrites `path`. */
    method Write(path: string)
      modifies this
      ensures files == old(files) + {path}
    {
      files := files + {path};
    }

    /** `if os.path.exists(path): os.remove(path)` */
    method RemoveIfExists(path: string)
      modifies this
      ensures files == old(files) - {path}
    {
      if Exists(path) {
        files := files - {path};
      }
    }

    /** `os.remove(path)` with no check: `raised` stands for the
        FileNotFoundError when the file is absent. */
    method Remove(path: string) returns (raised: bool)
      modifies this
      ensures raised <==> path !in old(files)
      ensures files == old(files) - {path}
    {
      raised := !Exists(path);
      if !raised {
        files := files - {path};
      }
    }
  }
}
