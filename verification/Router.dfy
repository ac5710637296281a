/** The registry that maps target ids to pipelines and their bookmarks. */
module Router {
  import opened SessionModel
  import opened Pipeline
  import KVStore
  import Scrollback

  class BookmarkStore {
    var marks: map<string, nat>

    constructor ()
      ensures marks == map[]
    {
      marks := map[];
    }
  }

  /** A pipeline whose scrollback holds nothing yet. */
  ghost predicate Empty(p: Pipeline)
    reads p.scrollback, p.scrollback.buf
  {
    p.scrollback.Valid() && p.scrollback.Contents() == []
  }

  class Router {
    var pipes: map<TargetID, Pipeline>
    var bookmarks: map<TargetID, BookmarkStore>
    const kv: KVStore.Store
    const sinkFn: Sink?
    const filterChainMax: int
    const defaultScrollbackCap: int

    ghost predicate Valid()
      reads this, kv
    {
      && kv.Valid()
      && pipes.Keys == bookmarks.Keys
      && forall id :: id in pipes ==> pipes[id].targetID == id
    }

    constructor (kv: KVStore.Store, sinkFn: Sink?, filterChainMax: int, defaultScrollbackCap: int)
      requires kv.Valid()
      ensures Valid() && pipes == map[] && this.kv == kv && this.sinkFn == sinkFn
      ensures this.filterChainMax == (if filterChainMax == 0 then 8 else filterChainMax)
      ensures this.defaultScrollbackCap ==
              (if defaultScrollbackCap == 0 then Scrollback.DEFAULT_CAP else defaultScrollbackCap)
    {
      this.kv, this.sinkFn, pipes, bookmarks := kv, sinkFn, map[], map[];
      this.filterChainMax := if filterChainMax == 0 then 8 else filterChainMax;
      this.defaultScrollbackCap := if defaultScrollbackCap == 0 then Scrollback.DEFAULT_CAP else defaultScrollbackCap;
    }

    /** A new pipeline with an empty scrollback, or null when the id is taken; no other entry changes. */
    method Register(id: TargetID, scrollbackCap: int) returns (p: Pipeline?)
      requires Valid()
      modifies this
      ensures Valid()
      ensures p == null <==> id in old(pipes)
      ensures p == null ==> pipes == old(pipes) && bookmarks == old(bookmarks)
      ensures p != null ==>
                && fresh(p) && fresh(p.scrollback) && fresh(p.scrollback.buf) && p.Valid() && p.kv == kv
                && Empty(p)
                && p.scrollback.cap ==
                   Scrollback.EffectiveCap(if scrollbackCap <= 0 then defaultScrollbackCap else scrollbackCap)
                && p.filters == [] && !p.hasHandler && p.maxFilterStages == filterChainMax
                && p.sinks == (if sinkFn != null then [sinkFn] else [])
                && pipes == old(pipes)[id := p]
                && id in bookmarks && fresh(bookmarks[id]) && bookmarks == old(bookmarks)[id := bookmarks[id]]
    {
      if id in pipes { return null; }
      p := NewPipeline(id, scrollbackCap);
      var marks := new BookmarkStore();
      pipes, bookmarks := pipes[id := p], bookmarks[id := marks];
    }

    method NewPipeline(id: TargetID, scrollbackCap: int) returns (p: Pipeline)
      requires kv.Valid()
      ensures fresh(p) && fresh(p.scrollback) && fresh(p.scrollback.buf) && p.Valid() && p.kv == kv && p.targetID == id
      ensures Empty(p) && p.filters == [] && !p.hasHandler && p.maxFilterStages == filterChainMax
      ensures p.sinks == if sinkFn != null then [sinkFn] else []
      ensures p.scrollback.cap ==
              Scrollback.EffectiveCap(if scrollbackCap <= 0 then defaultScrollbackCap else scrollbackCap)
    {
      var sb := new Scrollback.ScrollbackBuffer(if scrollbackCap <= 0 then defaultScrollbackCap else scrollbackCap);
      p := new Pipeline(id, filterChainMax, kv, sb);
      if sinkFn != null { p.AddSink(sinkFn); }
    }

    method Get(id: TargetID) returns (p: Pipeline?)
      ensures p == if id in pipes then pipes[id] else null
    {
      p := if id in pipes then pipes[id] else null;
    }

    method Deregister(id: TargetID)
      requires Valid()
      modifies this
      ensures Valid() && pipes == old(pipes) - {id} && bookmarks == old(bookmarks) - {id}
    {
      pipes, bookmarks := pipes - {id}, bookmarks - {id};
    }
  }
}
