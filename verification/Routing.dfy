/** Where a copy goes: the decision after a handler returns, and the names of the three queues. */
module Routing {
  import opened Base
  import opened GoStrings
  import opened Headers

  datatype Route = RouteCommit | RouteRetry | RouteDLQ | RouteDrop

  /** decideRoute of the Kafka package. */
  function KafkaRoute(err: Option<Error>, retryCount: int, maxRetries: int): Route {
    if err.None? then RouteCommit
    else if err.value.canceled then RouteDrop
    else if err.value.nonRetryable || retryCount >= maxRetries then RouteDLQ
    else RouteRetry
  }

  /** decideRoute of the SQS package. */
  function SqsRoute(err: Option<Error>, retryCount: int, maxRetries: int): Route {
    if err.None? then RouteCommit
    else if err.value.canceled then RouteDrop
    else if err.value.nonRetryable then RouteDLQ
    else if retryCount >= maxRetries then RouteDLQ
    else RouteRetry
  }

  /**
   The two decisions agree: nil is committed, a cancelled handler is left alone, and of the other
   errors the final ones and those at the budget go to the DLQ, the rest to retry.
   */
  lemma SameRouteOnBothBrokers(err: Option<Error>, retryCount: int, maxRetries: int)
    ensures KafkaRoute(err, retryCount, maxRetries) == SqsRoute(err, retryCount, maxRetries)
    ensures var r := KafkaRoute(err, retryCount, maxRetries);
            && (r == RouteCommit <==> err == None)
            && (r == RouteDrop <==> err.Some? && err.value.canceled)
            && (r == RouteDLQ <==> err.Some? && !err.value.canceled
                                   && (err.value.nonRetryable || retryCount >= maxRetries))
  {
  }

  datatype Suffixes = Suffixes(retry: string, dlq: string)

  /** destTopic of the Kafka package. */
  function DestTopic(origin: string, sfx: Suffixes, toDLQ: bool): string {
    TrimSuffix(origin, sfx.retry) + (if toDLQ then sfx.dlq else sfx.retry)
  }

  /** destQueueURL of the SQS package: the suffix rule on the last path segment. */
  function DestQueueURL(originURL: string, sfx: Suffixes, toDLQ: bool): string {
    match AfterLastSlash(originURL)
    case None => originURL
    case Some(k) => originURL[..k] + DestTopic(originURL[k..], sfx, toDLQ)
  }

  /** The configuration under which the three topics of `main` are what the documentation draws. */
  predicate Separable(main: string, sfx: Suffixes) {
    !HasSuffix(main, sfx.retry) && sfx.retry != "" && sfx.dlq != "" && sfx.retry != sfx.dlq
  }

  /**
   The destinations computed from a main topic are two further topics exactly when the topic
   does not already end in the retry suffix and the suffixes are distinct and not empty.
   */
  lemma TopicsDistinct(main: string, sfx: Suffixes)
    ensures Separable(main, sfx) <==>
            (var retry, dlq := DestTopic(main, sfx, false), DestTopic(main, sfx, true);
             main != retry && main != dlq && retry != dlq)
  {
    var base := TrimSuffix(main, sfx.retry);
    var retry, dlq := base + sfx.retry, base + sfx.dlq;
    if HasSuffix(main, sfx.retry) {
      assert retry == main;
    } else {
      assert sfx.retry != "" by { assert main[|main|..] == ""; }
      assert retry[|main|..] == sfx.retry && dlq[|main|..] == sfx.dlq;
    }
  }

  /**
   Closure and round trip: from the retry topic the destinations are the same retry topic and
   DLQ, and trimming the suffix leads back to the main topic.
   */
  lemma TopicsClosed(main: string, sfx: Suffixes)
    requires Separable(main, sfx)
    ensures var retry := DestTopic(main, sfx, false);
            && DestTopic(retry, sfx, false) == retry
            && DestTopic(retry, sfx, true) == DestTopic(main, sfx, true)
            && TrimSuffix(retry, sfx.retry) == main
            && retry == main + sfx.retry && DestTopic(main, sfx, true) == main + sfx.dlq
  {
    TrimAppended(main, sfx.retry);
  }

  /** A queue URL: a prefix ending in '/', and a queue name. */
  predicate SeparableURL(url: string, sfx: Suffixes) {
    && '/' !in sfx.retry && '/' !in sfx.dlq
    && var k := AfterLastSlash(url);
       k.Some? && Separable(url[k.value..], sfx)
  }

  lemma NameHasNoSlash(name: string, sfx: Suffixes, toDLQ: bool)
    requires '/' !in name && '/' !in sfx.retry && '/' !in sfx.dlq
    ensures '/' !in DestTopic(name, sfx, toDLQ)
  {
    var base := TrimSuffix(name, sfx.retry);
    assert base <= name;
  }

  lemma QueueName(url: string, sfx: Suffixes, k: nat, toDLQ: bool)
    requires AfterLastSlash(url) == Some(k) && '/' !in sfx.retry && '/' !in sfx.dlq
    ensures DestQueueURL(url, sfx, toDLQ) == url[..k] + DestTopic(url[k..], sfx, toDLQ)
    ensures AfterLastSlash(DestQueueURL(url, sfx, toDLQ)) == Some(k)
  {
    var dest := DestTopic(url[k..], sfx, toDLQ);
    assert '/' !in dest by {
      NameHasNoSlash(url[k..], sfx, toDLQ);
    }
    SlashStays(url, k, dest);
  }

  lemma SlashStays(url: string, k: nat, dest: string)
    requires 0 < k <= |url| && url[k - 1] == '/' && '/' !in dest
    ensures AfterLastSlash(url[..k] + dest) == Some(k)
  {
    var prefix := url[..k];
    assert prefix[k - 1] == '/';
    LastSlashUnique(prefix, dest);
  }

  /** Without a path there is nowhere to go but the same URL. */
  lemma NoPathNoSuffix(url: string, sfx: Suffixes, toDLQ: bool)
    requires '/' !in url
    ensures DestQueueURL(url, sfx, toDLQ) == url
  {
  }

  /** The same for queue URLs, where the way back trims the suffix off the whole URL. */
  lemma QueuesClosed(url: string, sfx: Suffixes)
    requires SeparableURL(url, sfx)
    ensures var retry, dlq := DestQueueURL(url, sfx, false), DestQueueURL(url, sfx, true);
            && url != retry && url != dlq && retry != dlq
            && DestQueueURL(retry, sfx, false) == retry
            && DestQueueURL(retry, sfx, true) == dlq
            && TrimSuffix(retry, sfx.retry) == url
            && retry == url + sfx.retry && dlq == url + sfx.dlq
  {
    var k := AfterLastSlash(url).value;
    QueueName(url, sfx, k, false);
    QueuesDistinct(url, sfx, k);
    var retry := DestQueueURL(url, sfx, false);
    QueueName(retry, sfx, k, false);
    QueueName(retry, sfx, k, true);
    TopicsClosed(url[k..], sfx);
    assert retry[..k] == url[..k] && retry[k..] == DestTopic(url[k..], sfx, false);
    TrimAppended(url, sfx.retry);
  }

  lemma QueuesDistinct(url: string, sfx: Suffixes, k: nat)
    requires AfterLastSlash(url) == Some(k) && Separable(url[k..], sfx)
    ensures var retry, dlq := DestQueueURL(url, sfx, false), DestQueueURL(url, sfx, true);
            url != retry && url != dlq && retry != dlq && retry == url + sfx.retry && dlq == url + sfx.dlq
  {
    NameJoins(url, k, sfx.retry);
    NameJoins(url, k, sfx.dlq);
    assert DestTopic(url[k..], sfx, false) == url[k..] + sfx.retry;
    assert DestTopic(url[k..], sfx, true) == url[k..] + sfx.dlq;
    PrefixedDiffer(url, sfx.retry, sfx.dlq);
    assert |url + sfx.retry| > |url| && |url + sfx.dlq| > |url|;
  }

  lemma NameJoins(url: string, k: nat, suffix: string)
    requires k <= |url|
    ensures url[..k] + (url[k..] + suffix) == url + suffix
  {
  }

  lemma PrefixedDiffer(prefix: string, a: string, b: string)
    requires a != b
    ensures prefix + a != prefix + b
  {
    assert (prefix + a)[|prefix|..] == a && (prefix + b)[|prefix|..] == b;
  }

  /**
   A main queue whose name already ends in the retry suffix is its own retry destination: a
   failing message is sent back to the queue it came from.
   */
  lemma SuffixedQueueRetriesIntoItself(url: string, sfx: Suffixes, k: nat)
    requires AfterLastSlash(url) == Some(k)
    ensures DestQueueURL(url, sfx, false) == url <==> HasSuffix(url[k..], sfx.retry) || sfx.retry == ""
  {
    var name := url[k..];
    assert url == url[..k] + name;
    var dest := url[..k] + DestTopic(name, sfx, false);
    assert dest[k..] == DestTopic(name, sfx, false);
    assert sfx.retry == "" ==> name[|name|..] == "";
  }
}
