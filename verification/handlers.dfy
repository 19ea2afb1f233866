/**
 * The bot's update handlers over the store they share.  The three
 * collections are sequence fields that the handlers reassign; each handler
 * returns its reply.  What the external services produce (the polarity of
 * the text, the generated answer, whether an upload downloads and whether it
 * decodes as an image) is passed in.
 */
module Handlers {
  import opened Wrappers
  import opened Storage
  import opened Replies

  const WelcomeBack: string := "Welcome back!"
  const Welcome: string := "Welcome! Please share your phone number using the contact button."
  const PhoneSaved: string := "Thank you! Your phone number has been saved."

  class Bot {
    var users: seq<User>
    var chatHistory: seq<ChatEntry>
    var files: seq<FileRecord>

    /** The store's invariant: at most one user per chat id. */
    ghost predicate Valid()
      reads this
    {
      UniqueChatIds(users)
    }

    /** A bot over a store that already holds these documents. */
    constructor (users0: seq<User>, history0: seq<ChatEntry>, files0: seq<FileRecord>)
      requires UniqueChatIds(users0)
      ensures Valid()
      ensures users == users0 && chatHistory == history0 && files == files0
    {
      users, chatHistory, files := users0, history0, files0;
    }

    /**
     * `/start`: a known chat is welcomed back and nothing is stored; a new
     * chat gets one user record with no phone number and no referral points.
     */
    method Start(chatId: int, firstName: string, username: Option<string>) returns (reply: string)
      requires Valid()
      modifies this
      ensures Valid()
      ensures users == StartUsers(old(users), chatId, firstName, username)
      ensures FindUser(old(users), chatId).Some? ==> reply == WelcomeBack && users == old(users)
      ensures FindUser(old(users), chatId).None? ==>
        reply == Welcome && users == old(users) + [User(firstName, username, chatId, None, 0)]
      ensures FindUser(users, chatId).Some?
      ensures chatHistory == old(chatHistory) && files == old(files)
    {
      StartKeepsUnique(users, chatId, firstName, username);
      StartRegisters(users, chatId, firstName, username);
      if FindUser(users, chatId).Some? {
        reply := WelcomeBack;
      } else {
        users := users + [NewUser(chatId, firstName, username)];
        reply := Welcome;
      }
    }

    /**
     * A shared contact: the phone number of the user with this chat id is
     * set, nothing else changes, and the thanks are sent even when no user
     * matched.
     */
    method HandleContact(chatId: int, phone: string) returns (reply: string)
      requires Valid()
      modifies this
      ensures Valid()
      ensures users == SetPhone(old(users), chatId, phone)
      ensures |users| == |old(users)|
      ensures FindUser(old(users), chatId).None? ==> users == old(users)
      ensures forall j :: 0 <= j < |users| && FindUser(old(users), chatId) != Some(j) ==> users[j] == old(users)[j]
      ensures FindUser(old(users), chatId).Some? ==>
        var i := FindUser(old(users), chatId).value;
        users[i] == old(users)[i].(phoneNumber := Some(phone))
      ensures chatHistory == old(chatHistory) && files == old(files)
      ensures reply == PhoneSaved
    {
      SetPhoneKeepsUnique(users, chatId, phone);
      SetPhoneFrame(users, chatId, phone);
      var found := FindUser(users, chatId);
      if found.Some? {
        var i := found.value;
        users := users[i := users[i].(phoneNumber := Some(phone))];
      }
      reply := PhoneSaved;
    }

    /**
     * A text message: one history entry holding the text, the generated
     * answer and the message date is appended, and the reply is the answer
     * followed by a space and the sentiment emoji.
     */
    method HandleMessage(chatId: int, text: string, polarity: real, response: string, date: int)
      returns (reply: string)
      requires Valid()
      modifies this
      ensures Valid()
      ensures chatHistory == old(chatHistory) + [ChatEntry(chatId, text, response, date)]
      ensures users == old(users) && files == old(files)
      ensures reply == ReplyText(response, Emoji(polarity))
    {
      var emoji := Emoji(polarity);
      chatHistory := chatHistory + [ChatEntry(chatId, text, response, date)];
      reply := ReplyText(response, emoji);
    }

    /**
     * An uploaded file.  An update without a document (a photo) raises before
     * anything is stored, and so does a download that fails.  Otherwise one
     * file record is appended first, then the name decides the reply.
     */
    method HandleDocument(chatId: int, doc: Option<Document>, downloaded: bool, date: int, decodes: bool)
      returns (reply: Reply)
      requires Valid()
      modifies this
      ensures Valid()
      ensures users == old(users) && chatHistory == old(chatHistory)
      ensures doc.None? || !downloaded ==> reply == Raised && files == old(files)
      ensures doc.Some? && downloaded ==>
        files == old(files) + [FileRecord(chatId, doc.value.fileName, doc.value.fileId, doc.value.fileSize, date)]
      ensures doc.Some? && downloaded ==> reply == DocumentReply(doc.value.fileName, decodes)
    {
      if doc.None? || !downloaded {
        return Raised;
      }
      var d := doc.value;
      files := files + [FileRecord(chatId, d.fileName, d.fileId, d.fileSize, date)];
      reply := DocumentReply(d.fileName, decodes);
    }
  }
}
