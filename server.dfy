/**
 * The link store and click ledger behind the three request handlers of the
 * QR tracker: `POST /create`, `GET /r/:code` and `GET /stats/:code`.
 * The two SQLite tables are held in memory: `links` as a map keyed by the
 * primary key `code`, and the append-only `clicks` table as a sequence with
 * its auto-increment counter.
 */
module Server {
  import opened Results
  import opened ShortUrls

  /** Bytes of the PNG image produced by the QR encoder. */
  type Png = seq<bv8>

  /** A row of the `links` table (its key, `code`, is the map key). */
  datatype Link = Link(url: string, clicks: nat)

  /** A row of the `clicks` table; the insertion timestamp is not modelled. */
  datatype ClickEvent = ClickEvent(id: nat, code: string, userAgent: Option<string>, ip: Option<string>)

  /** An error response: the HTTP status and the body sent with it. */
  datatype Error = Error(status: nat, message: string)

  const UrlRequired := Error(400, "URL is required")
  const DbError := Error(500, "DB error")
  const QrError := Error(500, "QR error")
  const NotFound := Error(404, "Not found")

  /** The request's `url` is missing or the empty string, so it fails the `!url` test. */
  predicate MissingUrl(url: Option<string>)
  {
    url.None? || url.value == ""
  }

  /** The number of click records for `code` in `log`. */
  function CountFor(log: seq<ClickEvent>, code: string): (n: nat)
    ensures n <= |log|
  {
    if log == [] then 0
    else (if log[0].code == code then 1 else 0) + CountFor(log[1..], code)
  }

  /** A code has no clicks counted exactly when no click record names it. */
  lemma {:induction false} CountForZero(log: seq<ClickEvent>, code: string)
    ensures CountFor(log, code) == 0 <==> forall i :: 0 <= i < |log| ==> log[i].code != code
  {
    if log != [] {
      CountForZero(log[1..], code);
      assert forall i :: 1 <= i < |log| ==> log[i] == log[1..][i - 1];
    }
  }

  /** Appending one click record raises the count of its own code by one and no other. */
  lemma {:induction false} CountForAppend(log: seq<ClickEvent>, e: ClickEvent, code: string)
    ensures CountFor(log + [e], code) == CountFor(log, code) + (if e.code == code then 1 else 0)
  {
    if log == [] {
      assert [e][1..] == [];
    } else {
      assert (log + [e])[1..] == log[1..] + [e];
      CountForAppend(log[1..], e, code);
    }
  }

  /**
   * The database invariant: click ids start at 1 and strictly increase below
   * the next id, every click refers to an existing link, and each link's
   * counter equals its number of click records.
   */
  ghost predicate Consistent(links: map<string, Link>, log: seq<ClickEvent>, nextId: nat)
  {
    && nextId >= 1
    && (forall i :: 0 <= i < |log| ==> 1 <= log[i].id < nextId)
    && (forall i, j :: 0 <= i < j < |log| ==> log[i].id < log[j].id)
    && (forall i :: 0 <= i < |log| ==> log[i].code in links)
    && (forall code :: code in links ==> links[code].clicks == CountFor(log, code))
  }

  /** Inserting a new code with no clicks keeps the database consistent. */
  lemma InsertKeepsConsistent(links: map<string, Link>, log: seq<ClickEvent>, nextId: nat, code: string, url: string)
    requires Consistent(links, log, nextId) && code !in links
    ensures Consistent(links[code := Link(url, 0)], log, nextId)
  {
    CountForZero(log, code);
  }

  /**
   * Raising one link's counter together with appending its click record
   * under the next id keeps the database consistent.
   */
  lemma ClickKeepsConsistent(links: map<string, Link>, log: seq<ClickEvent>, nextId: nat,
                             code: string, userAgent: Option<string>, ip: Option<string>)
    requires Consistent(links, log, nextId) && code in links
    ensures Consistent(links[code := Link(links[code].url, links[code].clicks + 1)],
                       log + [ClickEvent(nextId, code, userAgent, ip)], nextId + 1)
  {
    var e := ClickEvent(nextId, code, userAgent, ip);
    var links' := links[code := Link(links[code].url, links[code].clicks + 1)];
    forall c | c in links'
      ensures links'[c].clicks == CountFor(log + [e], c)
    {
      CountForAppend(log, e, c);
    }
  }

  /** Both tables of the database file, with the `clicks` table's auto-increment counter. */
  class Database {
    var links: map<string, Link>
    var log: seq<ClickEvent>
    var nextId: nat

    /** The database invariant over the current contents of both tables. */
    ghost predicate Valid()
      reads this
    {
      Consistent(links, log, nextId)
    }

    /** A freshly created database file: both tables empty. */
    constructor ()
      ensures Valid()
      ensures links == map[] && log == [] && nextId == 1
    {
      links := map[];
      log := [];
      nextId := 1;
    }

    /**
     * `POST /create`: rejects a missing or empty url, inserts the row for
     * `code` (failing on a duplicate key, or when the store refuses the write,
     * which `writable` says), then hands the short URL to the encoder; an
     * encoder failure leaves the inserted row in place.
     */
    method Create(url: Option<string>, protocol: string, host: string, code: string,
                  writable: bool, encode: string -> Option<Png>) returns (r: Result<Png, Error>)
      requires Valid()
      modifies this
      ensures Valid()
      ensures log == old(log) && nextId == old(nextId)
      ensures MissingUrl(url) ==> r == Err(UrlRequired) && links == old(links)
      ensures !MissingUrl(url) && (code in old(links) || !writable) ==>
        r == Err(DbError) && links == old(links)
      ensures !MissingUrl(url) && code !in old(links) && writable ==>
        && links == old(links)[code := Link(url.value, 0)]
        && r == match encode(ShortUrl(protocol, host, code))
                case None => Err(QrError)
                case Some(png) => Ok(png)
    {
      if MissingUrl(url) {
        return Err(UrlRequired);
      }
      var shortUrl := ShortUrl(protocol, host, code);
      if code in links || !writable {
        return Err(DbError);
      }
      InsertKeepsConsistent(links, log, nextId, code, url.value);
      links := links[code := Link(url.value, 0)];
      match encode(shortUrl) {
        case None => r := Err(QrError);
        case Some(png) => r := Ok(png);
      }
    }

    /**
     * `GET /r/:code`: an unknown code is a 404 and changes nothing; a known
     * code has its counter raised by one, gets one click record appended
     * with the next id, and yields the stored url to redirect to.
     */
    method Resolve(code: string, userAgent: Option<string>, ip: Option<string>) returns (r: Result<string, Error>)
      requires Valid()
      modifies this
      ensures Valid()
      ensures code !in old(links) ==> r == Err(NotFound) && unchanged(this)
      ensures code in old(links) ==>
        && r == Ok(old(links)[code].url)
        && links == old(links)[code := Link(old(links)[code].url, old(links)[code].clicks + 1)]
        && log == old(log) + [ClickEvent(old(nextId), code, userAgent, ip)]
        && nextId == old(nextId) + 1
        && (forall i :: 0 <= i < |old(log)| ==> old(log)[i].id < old(nextId))
    {
      if code !in links {
        return Err(NotFound);
      }
      var row := links[code];
      ClickKeepsConsistent(links, log, nextId, code, userAgent, ip);
      links, log, nextId := links[code := Link(row.url, row.clicks + 1)],
        log + [ClickEvent(nextId, code, userAgent, ip)], nextId + 1;
      r := Ok(row.url);
    }

    /** `GET /stats/:code`: the row's url and counter, or a 404; nothing changes. */
    method Stats(code: string) returns (r: Result<Link, Error>)
      requires Valid()
      ensures r.Ok? <==> code in links
      ensures r.Err? ==> r.error == NotFound
      ensures r.Ok? ==> r.value == links[code] && r.value.clicks == CountFor(log, code)
    {
      if code !in links {
        return Err(NotFound);
      }
      r := Ok(links[code]);
    }
  }

  /** A client of the handlers: create a link, follow it once, then read its stats. */
  method CreateResolveStatsScenario()
  {
    var db := new Database();
    var png: Png := [0x89, 0x50, 0x4e, 0x47];
    var encode := (s: string) => if s == "https://dx1.dev/r/ab12cd" then Some(png) else None;
    var created := db.Create(Some("https://example.com"), "https", "dx1.dev", "ab12cd", true, encode);
    assert created == Ok(png);
    var target := db.Resolve("ab12cd", Some("curl/8.0"), Some("127.0.0.1"));
    assert target == Ok("https://example.com");
    assert db.log == [ClickEvent(1, "ab12cd", Some("curl/8.0"), Some("127.0.0.1"))];
    var stats := db.Stats("ab12cd");
    assert stats == Ok(Link("https://example.com", 1));
  }

  /**
   * A client of the failure paths: a duplicate code, an empty url, a store
   * that refuses the insert and an unknown code change nothing, while an encoder failure keeps the new row.
   */
  method FailedRequestsScenario()
  {
    var db := new Database();
    var encode := (s: string) => None;
    var created := db.Create(Some("https://example.com"), "https", "dx1.dev", "ab12cd", true, encode);
    assert created == Err(QrError);
    var duplicate := db.Create(Some("https://other.example"), "https", "dx1.dev", "ab12cd", true, encode);
    assert duplicate == Err(DbError);
    var noUrl := db.Create(Some(""), "https", "dx1.dev", "qq", true, encode);
    assert noUrl == Err(UrlRequired);
    var locked := db.Create(Some("https://b.example"), "https", "dx1.dev", "qq", false, encode);
    assert locked == Err(DbError);
    var missing := db.Resolve("qq", None, None);
    assert missing == Err(NotFound);
    var stats := db.Stats("ab12cd");
    assert stats == Ok(Link("https://example.com", 0));
    assert db.log == [];
  }
}
