# lolxd-bot in Dafny

A model of the core of lolxd-bot, a chat bot that learns from a channel's
archived history and answers messages with generated sentences. The bot
starts by loading its history. It lists the immediate subdirectories of an
archive root and picks every entry whose path ends in `json`, whatever
its kind. Each picked entry is read and parsed as a file on its own worker
thread, and the sentences it keeps are the message texts of more than one
whitespace-separated token. The
per-file lists are merged into a Markov chain. The bot then serves forever:

- it fetches a session endpoint and opens a websocket;
- it handles frames one at a time;
- it reconnects when the socket closes or fails.

Only a `message` event in the configured channel gets a reply. For that
reply, the chain's `generate()` is called until it yields more than one
token, and that token list, joined with single spaces, is posted to the
channel under the bot's name. A `Ping` is answered with a `Pong` carrying
the same payload.

The model has five modules:

- `Words` covers whitespace tokenisation (`split_whitespace`) and `join(" ")`.
- `History` covers path selection, extracting the sentences of one file, and merging the per-file lists.
- `Reply` covers the configuration, the retry loop and the posted `Response`.
- `Session` covers dispatching a received frame, the inner receive loop and the outer reconnect loop.
- `Wrappers` provides `Option`.

What the loops do step by step is modelled as methods with loops:

- the `sentences` vector filled by `push`;
- the `feed_str` loop;
- the retry `loop`;
- the nested receive and reconnect loops.

Each method is proved against a function that specifies it. The properties
are stated as lemmas about those functions.

The outside world enters as inputs:

- the directory listings;
- the parsed records of each readable file;
- the frames the socket delivers, each Text frame carrying the result of parsing its body;
- the successive results of `generate()`.

What leaves the bot is modelled as a sequence of `Action`s:

- endpoint fetches;
- socket opens;
- `generate()` calls;
- posts;
- pongs.

The frames and the attempts are finite. The serving loop therefore ends
when the frames run out, or when the attempts run out during a reply.

Each archive file is read and parsed inside its own worker thread, with
`unwrap` (src/main.rs:63-64). A worker that panics there drops its sender
without sending, so the history loads without that file's sentences. In
the model, a selected path absent from the `archives` map contributes
nothing (`History.Sent`).

## Model

| member | source | states |
|---|---|---|
| Words.Tokens | src/main.rs:66 | every token `split_whitespace` yields is non-empty and free of whitespace |
| Words.TokensNonEmptyIff | src/main.rs:66 | there is at least one token iff some character is not whitespace |
| Words.TwoTokensIff | src/main.rs:66 | there is more than one token iff a non-whitespace character, a later whitespace and a later non-whitespace character occur |
| Words.TokensOfJoin | src/main.rs:128 | splitting on whitespace the `join(" ")` of whitespace-free, non-empty tokens gives those tokens back |
| History.ArchivePathsIff | src/main.rs:57-58 | a path passes the filter iff it is listed and its string ends in `json` |
| History.SelectPathsIff | src/main.rs:53-58 | a path is selected iff it is listed by an entry of the root whose file type is a directory, and it ends in `json`; nothing deeper is scanned |
| History.SuffixTestExamples | src/main.rs:58 | the suffix test needs no dot and is case-sensitive: `xjson` and `json` pass, `.JSON`, `json.bak` and the empty path fail |
| History.ExtractSentences | src/main.rs:62-69 | the loop pushing accepted texts yields exactly `Kept`, the present texts with more than one token, in record order |
| History.KeptConcat | src/main.rs:65-69 | extraction works record by record: the sentences of two runs of records are those of each, one after the other |
| History.KeptMembership | src/main.rs:65-68 | a text is kept iff some record carries it and it splits into more than one token |
| History.KeptIsSubsequence | src/main.rs:62-69 | the kept sentences are a subsequence of the present texts: unchanged and in order |
| History.FeedChain | src/main.rs:78-82 | the receive-and-feed loop feeds every sentence of every received list, list after list, in order |
| History.MergeOrderIrrelevant | src/main.rs:60-61 | any arrival order of the per-file lists feeds the same sentences with the same multiplicities |
| History.FlattenMembership | src/main.rs:78-82 | a sentence is fed iff some received list holds it |
| History.SentMembership | src/main.rs:59-70 | the lists sent are exactly the extractions of the selected paths whose file reads and parses |
| History.HistoryMembership | src/main.rs:53-82 | a text is in the loaded history iff a selected, readable archive file keeps it as a sentence |
| Reply.FirstLong | src/main.rs:124-130 | the index found is the first attempt with more than one token, and all earlier ones have at most one; with none found, every attempt has at most one |
| Reply.ChooseReply | src/main.rs:124-130 | the retry loop calls `generate()` up to and including the first attempt with more than one token, and replies with that attempt joined by single spaces; without one, it uses every attempt and produces no reply |
| Reply.ReplyIsSentence | src/main.rs:124-130 | when the chain's tokens are whitespace-free words, the reply splits back into exactly the accepted attempt, so it has more than one token |
| Session.RetryFirstLong | src/main.rs:124-142 | a reply costs one `generate()` call per attempt up to the first with more than one token, followed by one post of that attempt joined; with none, every attempt is used and nothing is posted |
| Session.StepFacts | src/main.rs:116-150 | per frame: generation and exactly one post only for a Text frame whose event is a `message` in the configured channel; a Ping gives one Pong with its payload; Close or an error gives a fresh endpoint fetch and socket; anything else, or an unparsed body, does nothing |
| Session.Handle | src/main.rs:117-150 | the `match` on one frame produces that frame's effects, and it ends the connection exactly on Close or a receive error |
| Session.Connection | src/main.rs:114-151 | the inner receive loop adds the effects of each frame it handles, in order, and returns right after a Close or receive error frame (which leads to a reconnect), no earlier frame of the connection having closed or failed, or when the input runs out |
| Session.Run | src/main.rs:92-154 | the reconnect loop around the receive loop produces exactly `Serve`: a first connection, then every frame's effects in order |
| Session.HaltedStays | src/main.rs:124-130 | once the attempts run out inside a reply, no later frame has any effect |
| Session.FrameEffects | src/main.rs:146-149 | in context: after Close or an error the next effects are exactly an endpoint fetch and a socket; after a Ping, exactly one Pong with the same payload and no generation; other frames change nothing |
| Session.RepliesPerMessage | src/main.rs:118-142 | up to any frame, the number of posts equals the number of qualifying messages: one reply per qualifying frame, before the next frame |
| Session.FetchesPerDrop | src/main.rs:92-153 | up to any frame, the endpoint fetches number one more than the Close frames and receive errors |
| Session.PongsEchoPings | src/main.rs:146 | up to any frame, the Pong payloads sent are the Ping payloads received, in the same order |
| Session.StepPost | src/main.rs:124-142 | the only post one frame can cause is the answer built from the attempt that ended the retry loop, which has more than one token |
| Session.StepReplies | src/main.rs:132-142 | each post one frame causes carries the token, channel and bot name of the configuration and an attempt with more than one token, joined |
| Session.RepliesUseConfig | src/main.rs:132-142 | every post sent carries the configured token, channel and bot name, and its text is some attempt of more than one token joined by single spaces |

## Left out

- The Markov chain (`Chain::of_order(2)`, `feed_str`, `generate`) is a foreign crate and is not part of this model. The fed sentences are recorded as they are passed in. The results of `generate()` are an input sequence of token lists.
- The worker threads and the `mpsc` channel are concurrency. The arrival order is a parameter of `History.FeedChain`. `History.MergeOrderIrrelevant` shows that every order feeds the same multiset of sentences.
- The following are I/O and are not modelled: directory listing, file reading, JSON parsing of archives, of the `rtm.connect` reply and of inbound events, the HTTP requests, and the websocket. Their results are inputs, and the requests are `Action`s. The url returned by `rtm.connect` is not represented: `OpenSocket` stands for connecting to it.
- Panics of the main thread end the process, and the model does not represent them. They come from `unwrap` on the root's entries, on a directory's listing, on non-UTF-8 path strings, and on the network calls. A failing `read_dir` of the root, which `main` returns as an error, is left out for the same reason.
- Command-line parsing and `println!` logging are left out; the configuration is a `Config` value.
- The chain's tokens are not known to be whitespace-free. `Reply.ReplyIsSentence` therefore assumes it of the accepted attempt.
- Reply.ChooseReply: when no attempt has more than one token, the source keeps calling `generate()` forever. The model stops when the given attempts are used up, and returns no reply.
- Session.Run: the source serves forever. The model stops when the frames run out, or when the attempts run out inside a reply (`halted`). When the frames run out without a Close or an error, no further connection is started. A final Close or error still produces its endpoint fetch and socket.
- Session.FetchesPerDrop, Session.RepliesPerMessage, Session.PongsEchoPings: these are stated for the frames handled before the attempts run out. After that point the model handles no more frames.
