/** The names of header fields. */
module FieldNames {

  /** A name that can be written into a header. */
  predicate Plain(name: string) {
    |name| <= 20 && '=' !in name && '\0' !in name && forall i :: 0 <= i < |name| ==> name[i] as int < 256
  }

  lemma ShortNames(name: string)
    requires name in {"op", "ver", "conn", "count", "time", "size"}
    ensures Plain(name)
  {
  }

  lemma ConnectionNames(name: string)
    requires name in {"topic", "type", "md5sum"}
    ensures Plain(name) && Plain("message_definition")
  {
  }

  lemma TimeNames(name: string)
    requires name in {"compression", "start_time", "end_time"}
    ensures Plain(name)
  {
  }

  lemma PositionNames(name: string)
    requires name in {"chunk_pos", "index_pos", "conn_count", "chunk_count"}
    ensures Plain(name)
  {
  }
}
