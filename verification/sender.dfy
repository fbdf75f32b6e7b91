/** Payload and target construction of the outbound senders (`SendChat`, `SendThreadChat`, `SendInbox`). */
module Sender {
  import opened Model

  /** A chat post: the URL it goes to and the chat record it carries. */
  datatype ChatPost = ChatPost(url: string, payload: Chat)

  /** A team-inbox post: the URL it goes to and the JSON object it carries. */
  datatype InboxPost = InboxPost(url: string, fields: map<string, string>)

  /** A post target: an endpoint base with the flow token appended. */
  function PostUrl(base: string, token: string): (url: string)
    ensures |url| == |base| + |token|
    ensures url[..|base|] == base
    ensures url[|base|..] == token
  {
    base + token
  }

  /** A field of a JSON object read into a string; a missing field reads as empty. */
  function Field(m: map<string, string>, key: string): string
  {
    if key in m then m[key] else ""
  }

  /** Reading a chat object back into the record. */
  function ChatOfFields(m: map<string, string>): Chat
  {
    Chat(Field(m, "content"), Field(m, "external_user_name"), Field(m, "thread_id"))
  }

  /**
   * The JSON object a chat record is written as: `content` and
   * `external_user_name` always, `thread_id` only when it is not empty.
   */
  function ChatFields(c: Chat): (m: map<string, string>)
    ensures "content" in m && m["content"] == c.content
    ensures "external_user_name" in m && m["external_user_name"] == c.externalUserName
    ensures "thread_id" in m <==> c.threadId != ""
    ensures m.Keys <= {"content", "external_user_name", "thread_id"}
    ensures ChatOfFields(m) == c
  {
    var m := map["content" := c.content, "external_user_name" := c.externalUserName];
    if c.threadId == "" then m else m["thread_id" := c.threadId]
  }

  /** `sendChat(parameters)`: post a chat record to the chat endpoint of the configured flow. */
  function PostChat(cfg: Config, c: Chat): (r: ChatPost)
    ensures cfg.chatUrl <= r.url && r.url[|cfg.chatUrl|..] == cfg.flowToken
    ensures r.payload == c
  {
    ChatPost(PostUrl(cfg.chatUrl, cfg.flowToken), c)
  }

  /** `SendChat(message)`: a chat message from the robot, outside any thread. */
  function SendChat(cfg: Config, message: string): (r: ChatPost)
    ensures cfg.chatUrl <= r.url && r.url[|cfg.chatUrl|..] == cfg.flowToken
    ensures ChatFields(r.payload) == map["content" := message, "external_user_name" := cfg.robotName]
  {
    PostChat(cfg, Chat(message, cfg.robotName, ""))
  }

  /** `SendThreadChat(threadId, message)`: a chat message from the robot into a thread. */
  function SendThreadChat(cfg: Config, threadId: string, message: string): (r: ChatPost)
    ensures cfg.chatUrl <= r.url && r.url[|cfg.chatUrl|..] == cfg.flowToken
    ensures ChatOfFields(ChatFields(r.payload)) == Chat(message, cfg.robotName, threadId)
    ensures "thread_id" in ChatFields(r.payload) <==> threadId != ""
  {
    PostChat(cfg, Chat(message, cfg.robotName, threadId))
  }

  /**
   * A thread chat goes where a plain chat goes and carries the same object
   * plus the thread id; with an empty thread id it is the plain chat.
   */
  lemma ThreadChatExtendsChat(cfg: Config, threadId: string, message: string)
    ensures SendThreadChat(cfg, threadId, message).url == SendChat(cfg, message).url
    ensures threadId != "" ==>
      ChatFields(SendThreadChat(cfg, threadId, message).payload) ==
      ChatFields(SendChat(cfg, message).payload)["thread_id" := threadId]
    ensures threadId == "" ==> SendThreadChat(cfg, threadId, message) == SendChat(cfg, message)
  {
  }

  /** The team-inbox JSON object. */
  function InboxFields(source: string, fromAddress: string, subject: string, content: string): (m: map<string, string>)
    ensures m.Keys == {"source", "from_address", "subject", "content"}
  {
    map["source" := source, "from_address" := fromAddress, "subject" := subject, "content" := content]
  }

  /** `SendInbox(source, from_address, subject, content)`: post to the inbox endpoint of the configured flow. */
  function SendInbox(cfg: Config, source: string, fromAddress: string, subject: string, content: string): (r: InboxPost)
    ensures cfg.inboxUrl <= r.url && r.url[|cfg.inboxUrl|..] == cfg.flowToken
    ensures r.fields.Keys == {"source", "from_address", "subject", "content"}
    ensures (Field(r.fields, "source"), Field(r.fields, "from_address"), Field(r.fields, "subject"),
             Field(r.fields, "content")) == (source, fromAddress, subject, content)
  {
    InboxPost(PostUrl(cfg.inboxUrl, cfg.flowToken), InboxFields(source, fromAddress, subject, content))
  }
}
