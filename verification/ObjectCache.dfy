/**
The positive and negative caches of object files in src/callStack.cpp (ensure_object_loaded), under the
resolver's mutex: an object's file is registered once, and a failure sticks.
*/
module ObjectCache {
  import opened Common

  datatype ObjectFile = ObjectFile(hasSymtab: bool, hasDwarf: bool, hasOwnSymtab: bool)

  /** What the system says on one attempt; the three tables may each fail to grow. */
  datatype Attempt = Attempt(path: string, stateMade: bool, registered: Option<ObjectFile>, insertThrows: bool)

  datatype Answer = Threw | NotLoadable | Loaded(file: ObjectFile)

  const EXECUTABLE_FILE: string := "/proc/self/exe"

  /** The executable has nothing a function could be named by. */
  predicate Nameless(a: Attempt) {
    a.path == EXECUTABLE_FILE && a.registered.Some? && !a.registered.value.hasDwarf && !a.registered.value.hasOwnSymtab
  }

  class Objects {
    var objects: map<Address, ObjectFile>
    var loadFailed: set<Address>
    /** How often each object's file was handed to the library, and how often the warning was given. */
    ghost var tries: multiset<Address>
    ghost var warnings: multiset<Address>
    /** Bases whose insertion into a table threw, once for each time. */
    ghost var thrown: multiset<Address>

    /**
    No object is both loaded and given up; a file is tried once for each time its insertion threw, and once more
    only if it ended up in a table.
    */
    ghost predicate Valid()
      reads this
    {
      && objects.Keys !! loadFailed
      && (forall base :: tries[base] <= thrown[base] + if base in objects || base in loadFailed then 1 else 0)
      && (forall base :: warnings[base] <= tries[base])
    }

    constructor ()
      ensures Valid() && objects == map[] && loadFailed == {} && thrown == multiset{}
    {
      objects, loadFailed := map[], {};
      tries, warnings, thrown := multiset{}, multiset{}, multiset{};
    }

    /** What the tables say of an object: nothing, that it failed, or its file. */
    function Known(base: Address): Option<Answer>
      reads this
    {
      if base in objects then Some(Loaded(objects[base])) else if base in loadFailed then Some(NotLoadable) else None
    }

    /** The failing branches: remember the failure, unless that throws. */
    method GiveUp(base: Address, insertThrows: bool) returns (answer: Answer)
      requires Valid() && Known(base).None?
      modifies this
      ensures Valid() && objects == old(objects) && tries == old(tries) && warnings == old(warnings)
      ensures if insertThrows
              then answer == Threw && loadFailed == old(loadFailed) && thrown == old(thrown) + multiset{base}
              else answer == NotLoadable && loadFailed == old(loadFailed) + {base} && thrown == old(thrown)
    {
      if insertThrows {
        thrown := thrown + multiset{base};
        return Threw;
      }
      loadFailed := loadFailed + {base};
      return NotLoadable;
    }

    /**
    ensure_object_loaded(): a known object is answered from the tables and never looked at again; an unknown one
    is tried, and the answer is what the tables say from then on, unless an insertion threw.
    */
    method EnsureObjectLoaded(base: Address, attempt: Attempt) returns (answer: Answer)
      requires Valid()
      modifies this
      ensures Valid()
      ensures old(Known(base)).Some? ==>
                answer == old(Known(base)).value && objects == old(objects) && loadFailed == old(loadFailed)
                && tries == old(tries) && warnings == old(warnings) && thrown == old(thrown)
      ensures old(Known(base)).None? ==>
                && (answer.Threw? <==> attempt.insertThrows)
                && (!answer.Threw? ==> Known(base) == Some(answer))
                && (answer.Loaded?
                    <==> attempt.path != "" && attempt.stateMade && attempt.registered.Some? && !attempt.insertThrows)
                && (answer.Loaded? ==> answer.file == attempt.registered.value)
                && tries == (if attempt.path != "" && attempt.stateMade then old(tries) + multiset{base}
                             else old(tries))
                && warnings == (if attempt.path == "/proc/self/exe" && attempt.stateMade && attempt.registered.Some?
                                   && !attempt.registered.value.hasDwarf && !attempt.registered.value.hasOwnSymtab
                                then old(warnings) + multiset{base} else old(warnings))
                && thrown == (if attempt.insertThrows then old(thrown) + multiset{base} else old(thrown))
      ensures forall other | other != base :: Known(other) == old(Known(other))
    {
      if base in objects {
        return Loaded(objects[base]);
      }
      if base in loadFailed {
        return NotLoadable;
      }
      if attempt.path == "" || !attempt.stateMade {
        answer := GiveUp(base, attempt.insertThrows);
        return;
      }
      if attempt.registered == None {
        answer := Tried(base, attempt);
        return;
      }
      answer := Registered(base, attempt);
    }

    /** A file that was registered: the warning comes before the insertion. */
    method Registered(base: Address, attempt: Attempt) returns (answer: Answer)
      requires Valid() && Known(base).None? && attempt.registered.Some?
      modifies this
      ensures Valid() && loadFailed == old(loadFailed) && tries == old(tries) + multiset{base}
      ensures warnings == if Nameless(attempt) then old(warnings) + multiset{base} else old(warnings)
      ensures if attempt.insertThrows
              then answer == Threw && objects == old(objects) && thrown == old(thrown) + multiset{base}
              else answer == Loaded(attempt.registered.value) && thrown == old(thrown)
                   && objects == old(objects)[base := attempt.registered.value]
    {
      tries := tries + multiset{base};
      if Nameless(attempt) {
        warnings := warnings + multiset{base};
      }
      if attempt.insertThrows {
        thrown := thrown + multiset{base};
        return Threw;
      }
      objects := objects[base := attempt.registered.value];
      return Loaded(attempt.registered.value);
    }

    /** A file that cannot be registered. */
    method Tried(base: Address, attempt: Attempt) returns (answer: Answer)
      requires Valid() && Known(base).None? && attempt.registered == None
      modifies this
      ensures Valid() && objects == old(objects) && warnings == old(warnings) && tries == old(tries) + multiset{base}
      ensures if attempt.insertThrows
              then answer == Threw && loadFailed == old(loadFailed) && thrown == old(thrown) + multiset{base}
              else answer == NotLoadable && loadFailed == old(loadFailed) + {base} && thrown == old(thrown)
    {
      tries := tries + multiset{base};
      if attempt.insertThrows {
        thrown := thrown + multiset{base};
        return Threw;
      }
      loadFailed := loadFailed + {base};
      return NotLoadable;
    }
  }
}
