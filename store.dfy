/** The object store behind the pipeline (one bucket): text objects by key. Whether a call
    to the store fails is decided outside this model and passed in as a fault flag. */
module ObjectStore {

  /** What `read_log_from_s3` returns: the stored text, or "" when the key is missing or
      the read fails for any reason. */
  function ReadResult(objects: map<string, string>, key: string, fault: bool): (r: string)
    ensures !fault && key in objects ==> r == objects[key]
    ensures fault || key !in objects ==> r == ""
  {
    if !fault && key in objects then objects[key] else ""
  }

  /** The objects after a put: the key holds the new text unless the put failed. */
  function AfterPut(objects: map<string, string>, key: string, content: string, fault: bool): (r: map<string, string>)
    ensures !fault ==> key in r && r[key] == content
    ensures forall k :: k != key ==> (k in r <==> k in objects) && (k in r ==> r[k] == objects[k])
    ensures fault ==> r == objects
  {
    if fault then objects else objects[key := content]
  }

  /** A successful put followed by a successful read returns what was put. */
  lemma ReadAfterPut(objects: map<string, string>, key: string, content: string)
    ensures ReadResult(AfterPut(objects, key, content, false), key, false) == content
  {
  }

  class Store {
    var objects: map<string, string>

    constructor (initial: map<string, string>)
      ensures objects == initial
    {
      objects := initial;
    }

    /** `read_log_from_s3`: never raises. */
    method ReadLog(key: string, fault: bool) returns (content: string)
      ensures content == ReadResult(objects, key, fault)
    {
      if fault || key !in objects {
        content := "";
      } else {
        content := objects[key];
      }
    }

    /** `put_object`: stores the text under key, or raises (ok is false) and changes nothing. */
    method Put(key: string, content: string, fault: bool) returns (ok: bool)
      modifies this
      ensures ok == !fault
      ensures objects == AfterPut(old(objects), key, content, fault)
    {
      if fault {
        ok := false;
      } else {
        objects := objects[key := content];
        ok := true;
      }
    }
  }
}
