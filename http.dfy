/** What a handler sends back, and the external services it may call on the way. */
module Http {
  import opened Wrappers
  import opened Basics
  import opened ProductModel
  import opened UserModel

  /** A product in a list reply, tagged with its approval status. */
  datatype Listed = Listed(product: Product, status: string)

  /** The JSON bodies the handlers send. */
  datatype Body =
    | Message(message: string)                                  // { message }
    | Error(error: string)                                      // { error }
    | ErrorPage(text: string)                                   // Express's default error handler
    | Session(message: string, token: string, user: SessionUser) // register and login
    | WithProduct(message: string, id: Id, product: Product)     // { message, product }
    | Document(found: Option<(Id, Product)>)                    // res.json(product), possibly null
    | Products(products: map<Id, Product>)                      // res.json(products)
    | Listing(entries: map<Id, Listed>)                         // res.json(products.map(...))
    | Account(account: Option<(Id, User)>)                      // res.json(user), password included
    | Accounts(accounts: map<Id, User>)                         // res.json(users), passwords included
    | Profile(profile: Option<(Id, PublicUser)>)                // res.json(user.select("-password"))

  /**
   * `Reply`: a response with a status code. `Unhandled`: the async handler's
   * promise rejects; Express 4 does not catch it, so nothing is sent.
   */
  datatype Response = Reply(status: int, body: Body) | Unhandled(reason: string)
}

/** The third-party services, as oracles whose outcome is an input. */
module Services {
  /** What `cloudinary.uploader.upload` returns, or the message it throws. */
  datatype UploadResult = Uploaded(secureUrl: string, publicId: string) | UploadFailed(message: string)

  /** An external call that either returns or throws with a message. */
  datatype Attempt = Done | Failed(message: string)

  /** The mail transport: off unless both `EMAIL_USER` and `EMAIL_PASS` are set; else what `sendMail` does. */
  datatype Mailer = MailOff | MailOn(send: Attempt)

  /** An external call made by a handler, in the order made. */
  datatype Effect = Upload | SendMail | Destroy(publicId: string)
}
