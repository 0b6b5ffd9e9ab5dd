/** What an SQS receive call hands back for one message. */
module Queues {
  /** `msg['ReceiptHandle']` and `msg['Body']`. */
  datatype Message = Message(receipt: string, body: string)
}
